/**
 * What the log guarantees over whole runs: how an entry can leave the pending list, which entries can still
 * reach the table, that claims change nothing but owners, and that clean runs deliver everything.
 */
module ChatDelivery {
  import opened Common
  import opened Messages
  import opened ChatStream

  ghost predicate HasEntry(s: System, k: Room, i: nat) {
    k in s.rooms && i < |s.rooms[k].entries|
  }

  ghost function EntryRow(s: System, k: Room, i: nat): Row
    requires HasEntry(s, k, i)
  {
    ToRow(s.rooms[k].entries[i])
  }

  lemma {:induction false} RunKeepsEntries(s: System, es: seq<Event>, k: Room, i: nat)
    requires CanRun(s, es) && HasEntry(s, k, i)
    ensures HasEntry(Run(s, es), k, i) && Run(s, es).rooms[k].entries[i] == s.rooms[k].entries[i]
    decreases es
  {
    if es != [] {
      RunKeepsEntries(Next(s, es[0]), es[1..], k, i);
    }
  }

  lemma InitialInv()
    ensures Inv(INITIAL)
  {
  }

  /** Each row is that of the one entry, in any stream, that was queued under its id. */
  ghost predicate Faithful(s: System) {
    forall r, k, i :: r in s.table && k in s.rooms && 0 <= i < |s.rooms[k].entries| && s.rooms[k].entries[i].id == r.id ==>
      r == ToRow(s.rooms[k].entries[i]) && Records(r, s.rooms[k].entries[i])
  }

  /**
   * Safety, whatever the workers do and however they fail: each entry is undelivered, pending or acknowledged, and
   * only one of these; what is acknowledged is in the table; the table has at most one row for each id, and that row
   * records what was queued under the id, and by whom; and no entry is in the batches of two workers.
   */
  lemma {:induction false} EveryInterleavingIsSafe(es: seq<Event>)
    requires CanRun(INITIAL, es)
    ensures var s := Run(INITIAL, es); UniqueIds(s.table) && Provenance(s) && Faithful(s)
    ensures forall k, i: nat :: HasEntry(Run(INITIAL, es), k, i) ==>
              var log := Run(INITIAL, es).rooms[k];
              && ExactlyOne(Undelivered(log, i), Pending(log, i), Acknowledged(log, i))
              && (Acknowledged(log, i) ==> EntryRow(Run(INITIAL, es), k, i) in Run(INITIAL, es).table)
              && forall v, w :: Holds(log, v, i) && Holds(log, w, i) ==> v == w
  {
    var s := Run(INITIAL, es);
    InitialInv();
    RunKeepsInv(INITIAL, es);
    forall r, k, i | r in s.table && k in s.rooms && 0 <= i < |s.rooms[k].entries| && s.rooms[k].entries[i].id == r.id
      ensures r == ToRow(s.rooms[k].entries[i]) && Records(r, s.rooms[k].entries[i])
    {
      RowsAreFaithful(s, r, k, i);
    }
  }

  // ---- Leaving the pending list --------------------------------------------------------------------------

  /** An entry leaves the pending list only when the worker that inserted its batch acknowledges it. */
  lemma PendingLeavesOnlyByAck(s: System, e: Event, k: Room, i: nat)
    requires Inv(s) && Enabled(s, e)
    requires Pending(LogOf(s, k), i) && !Pending(LogOf(Next(s, e), k), i)
    ensures e.room == k && e.op.Ack? && Holds(LogOf(s, k), e.op.w, i)
    ensures HasEntry(s, k, i) && EntryRow(s, k, i) in s.table && Acknowledged(LogOf(Next(s, e), k), i)
  {
  }

  /**
   * What the pending list says of an entry changes only by a claim of an entry that was listed as idle and has still
   * been idle for 5 s when the claim arrives; the claiming worker then holds it from that moment.
   */
  lemma ClaimTakesIff(s: System, e: Event, i: nat)
    requires Inv(s) && Enabled(s, e) && Pending(LogOf(s, e.room), i) && Pending(LogOf(Next(s, e), e.room), i)
    ensures var log, log' := LogOf(s, e.room), LogOf(Next(s, e), e.room);
            var takes := e.op.Claim? && i in log.flights[e.op.w].stale && e.op.now - log.pending[i].at >= 5000;
            log'.pending[i] == if takes then Delivery(e.op.w, e.op.now) else log.pending[i]
  {
    assert !Undelivered(LogOf(s, e.room), i);
  }

  /** What a flush lists for its claim, and what it reads: the next 50 entries at most, as pending for its worker. */
  lemma FlushTakesIff(s: System, e: Event, i: nat)
    requires Inv(s) && Enabled(s, e)
    ensures var log, log' := LogOf(s, e.room), LogOf(Next(s, e), e.room);
            && (e.op.Begin? ==> log'.flights[e.op.w].Recovering?)
            && (e.op.Begin? ==>
                  (i in log'.flights[e.op.w].stale <==>
                     && i < log.next && i in log.pending && e.op.now - log.pending[i].at > 5000
                     && |PendingBefore(log.pending, 0, i)| < 50))
            && (Pending(log', i) && !Pending(log, i) <==>
                  e.op.Fetch? && log.grouped && log.next <= i < log.next + 50 && i < |log.entries|)
            && (Pending(log', i) && !Pending(log, i) ==> log'.pending[i] == Delivery(e.op.w, e.op.now))
  {
    var log := LogOf(s, e.room);
    LogOfInv(s, e.room);
    if e.op.Begin? {
      StaleIdsExact(log, e.op.now, i);
    }
    if i < |log.entries| {
      assert ExactlyOne(Undelivered(log, i), Pending(log, i), Acknowledged(log, i));
    }
  }

  /** Pending, and no flush in progress knows about it. */
  ghost predicate Stranded(log: RoomLog, i: nat) {
    Pending(log, i) && forall w :: !Holds(log, w, i)
  }

  /** When the INSERT of a batch fails, every entry of the batch is stranded. */
  lemma FailedInsertStrands(s: System, e: Event, i: nat)
    requires Inv(s) && Enabled(s, e) && e.op.Abort? && Holds(LogOf(s, e.room), e.op.w, i)
    ensures Stranded(LogOf(Next(s, e), e.room), i)
  {
    var log, log' := LogOf(s, e.room), LogOf(Next(s, e), e.room);
    assert log'.flights == log.flights - {e.op.w};
    forall v
      ensures !Holds(log', v, i)
    {
      if Holds(log', v, i) {
        assert Holds(log, v, i);
      }
    }
  }

  lemma StepKeepsStranded(s: System, e: Event, k: Room, i: nat)
    requires Inv(s) && Enabled(s, e) && Stranded(LogOf(s, k), i)
    ensures Stranded(LogOf(Next(s, e), k), i)
  {
    var log, log' := LogOf(s, k), LogOf(Next(s, e), k);
    assert forall v :: Holds(log', v, i) ==> Holds(log, v, i) by {
      assert !Undelivered(log, i);
    }
    assert k == e.room && e.op.Ack? ==> !Holds(log, e.op.w, i);
  }

  /** A stranded entry stays pending in every later state, whatever is claimed, read or acknowledged. */
  lemma {:induction false} StrandedForever(s: System, es: seq<Event>, k: Room, i: nat)
    requires Inv(s) && CanRun(s, es) && Stranded(LogOf(s, k), i)
    ensures Stranded(LogOf(Run(s, es), k), i)
    decreases es
  {
    if es != [] {
      StepKeepsInv(s, es[0]);
      StepKeepsStranded(s, es[0], k, i);
      StrandedForever(Next(s, es[0]), es[1..], k, i);
    }
  }

  // ---- Which entries can still reach the table -----------------------------------------------------------

  /** `w` has read entry `i` and not inserted it yet. */
  ghost predicate Awaits(log: RoomLog, w: Worker, i: nat) {
    Holds(log, w, i) && log.flights[w].Fetched?
  }

  /** Readable off the current state: stored already, not read yet, or read by a flush that has not inserted yet. */
  ghost predicate Deliverable(s: System, k: Room, i: nat)
    requires HasEntry(s, k, i)
  {
    || EntryRow(s, k, i) in s.table
    || Undelivered(s.rooms[k], i)
    || exists w :: Awaits(s.rooms[k], w, i)
  }

  lemma StepKeepsLost(s: System, e: Event, k: Room, i: nat)
    requires Inv(s) && Enabled(s, e) && HasEntry(s, k, i) && !Deliverable(s, k, i)
    ensures HasEntry(Next(s, e), k, i) && !Deliverable(Next(s, e), k, i)
  {
    var s' := Next(s, e);
    var log, log' := s.rooms[k], s'.rooms[k];
    assert log'.entries[i] == log.entries[i];
    assert forall w :: Awaits(log', w, i) ==> Awaits(log, w, i);
    if EntryRow(s, k, i) in s'.table {
      NewRowWasHeld(s, e, k, i);
    }
  }

  /** The only way into the table is the INSERT of the flush that read the entry. */
  lemma NewRowWasHeld(s: System, e: Event, k: Room, i: nat)
    requires Inv(s) && Enabled(s, e) && HasEntry(s, k, i)
    requires EntryRow(s, k, i) !in s.table && EntryRow(s, k, i) in Next(s, e).table
    ensures e.room == k && e.op.Insert? && Awaits(s.rooms[k], e.op.w, i)
  {
    var f := LogOf(s, e.room).flights[e.op.w];
    var j := InsertAddsOnlyBatch(s, e.room, f.lo, f.hi, EntryRow(s, k, i));
    assert s.rooms[e.room].entries[j].id == s.rooms[k].entries[i].id;
  }

  lemma {:induction false} LostForever(s: System, es: seq<Event>, k: Room, i: nat)
    requires Inv(s) && CanRun(s, es) && HasEntry(s, k, i) && !Deliverable(s, k, i)
    ensures HasEntry(Run(s, es), k, i) && !Deliverable(Run(s, es), k, i)
    decreases es
  {
    if es != [] {
      StepKeepsInv(s, es[0]);
      StepKeepsLost(s, es[0], k, i);
      LostForever(Next(s, es[0]), es[1..], k, i);
    }
  }

  /** One flush of room `k` by `w`, undisturbed and without failures. */
  function FlushEvents(k: Room, w: Worker, now: int): seq<Event> {
    Recovery(k, w, now) + [Event(k, Fetch(w, now)), Event(k, Insert(w)), Event(k, Ack(w))]
  }

  function Recovery(k: Room, w: Worker, now: int): seq<Event> {
    [Event(k, Begin(w, now)), Event(k, Claim(w, now))]
  }

  /** The room after a flush that reads something and meets no failure. */
  function FlushedLog(log: RoomLog, w: Worker, now: int): RoomLog
    requires log.next <= |log.entries|
  {
    var batch := Range(log.next, FetchEnd(log));
    log.(pending := Claimed(log.pending, StaleIds(log, now), w, now) - batch,
         next := FetchEnd(log), acked := log.acked + batch)
  }

  function ClaimedLog(log: RoomLog, w: Worker, now: int): RoomLog {
    log.(pending := Claimed(log.pending, StaleIds(log, now), w, now), flights := log.flights[w := Recovered])
  }

  function FetchedLog(log: RoomLog, w: Worker, now: int): RoomLog
    requires log.next <= |log.entries|
  {
    log.(pending := Assigned(Claimed(log.pending, StaleIds(log, now), w, now), log.next, FetchEnd(log), w, now),
         next := FetchEnd(log), flights := log.flights[w := Fetched(log.next, FetchEnd(log))])
  }

  lemma FlushClaims(log: RoomLog, w: Worker, now: int)
    requires w !in log.flights
    ensures var begun := LogStep(log, Begin(w, now));
            LogEnabled(begun, Claim(w, now)) && LogStep(begun, Claim(w, now)) == ClaimedLog(log, w, now)
  {
    UpdateTwice(log.flights, w, Recovering(StaleIds(log, now)), Recovered);
  }

  lemma FlushReads(log: RoomLog, w: Worker, now: int)
    requires log.grouped && log.next < |log.entries|
    ensures var claimed := ClaimedLog(log, w, now);
            LogEnabled(claimed, Fetch(w, now)) && LogStep(claimed, Fetch(w, now)) == FetchedLog(log, w, now)
  {
    UpdateTwice(log.flights, w, Recovered, Fetched(log.next, FetchEnd(log)));
  }

  lemma AssignedThenAcked(pending: map<nat, Delivery>, lo: nat, hi: nat, w: Worker, now: int)
    ensures Assigned(pending, lo, hi, w, now) - Range(lo, hi) == pending - Range(lo, hi)
  {
  }

  lemma FlushStores(log: RoomLog, w: Worker, now: int)
    requires log.next <= |log.entries| && w !in log.flights
    ensures var fetched := FetchedLog(log, w, now);
            && LogEnabled(fetched, Insert(w))
            && var inserted := LogStep(fetched, Insert(w));
               LogEnabled(inserted, Ack(w)) && LogStep(inserted, Ack(w)) == FlushedLog(log, w, now)
  {
    var hi := FetchEnd(log);
    UpdateTwice(log.flights, w, Fetched(log.next, hi), Inserted(log.next, hi));
    UpdateThenRemove(log.flights, w, Inserted(log.next, hi));
    AssignedThenAcked(Claimed(log.pending, StaleIds(log, now), w, now), log.next, hi, w, now);
  }

  /** The system after such a flush of room `k`. */
  ghost function Flushed(s: System, k: Room, w: Worker, now: int): System
    requires k in s.rooms && s.rooms[k].next <= |s.rooms[k].entries|
  {
    System(s.rooms[k := FlushedLog(s.rooms[k], w, now)], AfterInsert(s, k, s.rooms[k].next, FetchEnd(s.rooms[k])))
  }

  ghost function InRoom(s: System, k: Room, log: RoomLog, table: seq<Row>): System {
    System(s.rooms[k := log], table)
  }

  /** Prefix a run with one step in room `k` that leaves the table alone. */
  lemma StepThen(s: System, k: Room, log: RoomLog, table: seq<Row>, op: Op, log': RoomLog, es: seq<Event>, t: System)
    requires LogEnabled(log, op) && !op.Enqueue? && !op.Insert? && LogStep(log, op) == log'
    requires CanRun(InRoom(s, k, log', table), es) && Run(InRoom(s, k, log', table), es) == t
    ensures CanRun(InRoom(s, k, log, table), [Event(k, op)] + es)
    ensures Run(InRoom(s, k, log, table), [Event(k, op)] + es) == t
  {
    UpdateTwice(s.rooms, k, log, log');
    assert ([Event(k, op)] + es)[1..] == es;
  }

  lemma InsertThen(s: System, k: Room, log: RoomLog, w: Worker, log': RoomLog, lo: nat, hi: nat, es: seq<Event>, t: System)
    requires LogEnabled(log, Insert(w)) && LogStep(log, Insert(w)) == log' && log.flights[w] == Fetched(lo, hi)
    requires log.entries == LogOf(s, k).entries
    requires var p := InRoom(s, k, log', AfterInsert(s, k, lo, hi)); CanRun(p, es) && Run(p, es) == t
    ensures CanRun(InRoom(s, k, log, s.table), [Event(k, Insert(w))] + es)
    ensures Run(InRoom(s, k, log, s.table), [Event(k, Insert(w))] + es) == t
  {
    UpdateTwice(s.rooms, k, log, log');
    assert ([Event(k, Insert(w))] + es)[1..] == es;
  }

  /** Prefix a run with the first two steps of a flush. */
  lemma RecoveryThen(s: System, k: Room, w: Worker, now: int, es: seq<Event>, t: System)
    requires k in s.rooms && w !in s.rooms[k].flights
    requires var p := InRoom(s, k, ClaimedLog(s.rooms[k], w, now), s.table); CanRun(p, es) && Run(p, es) == t
    ensures CanRun(s, Recovery(k, w, now) + es) && Run(s, Recovery(k, w, now) + es) == t
  {
    var log := s.rooms[k];
    var begun := LogStep(log, Begin(w, now));
    assert InRoom(s, k, log, s.table) == s;
    assert Recovery(k, w, now) + es == [Event(k, Begin(w, now))] + ([Event(k, Claim(w, now))] + es);
    FlushClaims(log, w, now);
    StepThen(s, k, begun, s.table, Claim(w, now), ClaimedLog(log, w, now), es, t);
    StepThen(s, k, log, s.table, Begin(w, now), begun, [Event(k, Claim(w, now))] + es, t);
  }

  lemma StoreRuns(s: System, k: Room, w: Worker, now: int)
    requires k in s.rooms && s.rooms[k].next < |s.rooms[k].entries| && w !in s.rooms[k].flights
    ensures var p, es := InRoom(s, k, FetchedLog(s.rooms[k], w, now), s.table), [Event(k, Insert(w))] + [Event(k, Ack(w))];
            CanRun(p, es) && Run(p, es) == Flushed(s, k, w, now)
  {
    var log := s.rooms[k];
    var fetched := FetchedLog(log, w, now);
    var inserted := LogStep(fetched, Insert(w));
    assert [Event(k, Ack(w))] + [] == [Event(k, Ack(w))];
    FlushStores(log, w, now);
    StepThen(s, k, inserted, AfterInsert(s, k, log.next, FetchEnd(log)), Ack(w), FlushedLog(log, w, now), [], Flushed(s, k, w, now));
    InsertThen(s, k, fetched, w, inserted, log.next, FetchEnd(log), [Event(k, Ack(w))], Flushed(s, k, w, now));
  }

  lemma FlushRuns(s: System, k: Room, w: Worker, now: int)
    requires k in s.rooms && s.rooms[k].grouped && s.rooms[k].next < |s.rooms[k].entries| && w !in s.rooms[k].flights
    ensures CanRun(s, FlushEvents(k, w, now)) && Run(s, FlushEvents(k, w, now)) == Flushed(s, k, w, now)
  {
    var log, t := s.rooms[k], Flushed(s, k, w, now);
    var tail := [Event(k, Insert(w))] + [Event(k, Ack(w))];
    assert [Event(k, Fetch(w, now))] + tail == [Event(k, Fetch(w, now)), Event(k, Insert(w)), Event(k, Ack(w))];
    StoreRuns(s, k, w, now);
    FlushReads(log, w, now);
    StepThen(s, k, ClaimedLog(log, w, now), s.table, Fetch(w, now), FetchedLog(log, w, now), tail, t);
    RecoveryThen(s, k, w, now, [Event(k, Fetch(w, now))] + tail, t);
  }

  /** An unread entry reaches the table: flush until the cursor has passed it. */
  lemma {:induction false} UnreadReachesTable(s: System, k: Room, i: nat, w: Worker) returns (es: seq<Event>)
    requires Inv(s) && HasEntry(s, k, i) && s.rooms[k].grouped && Undelivered(s.rooms[k], i) && w !in s.rooms[k].flights
    ensures CanRun(s, es) && EntryRow(s, k, i) in Run(s, es).table
    decreases i - s.rooms[k].next
  {
    var log := s.rooms[k];
    FlushRuns(s, k, w, 0);
    var s' := Run(s, FlushEvents(k, w, 0));
    InsertAddsBatch(s, k, log.next, FetchEnd(log));
    if i < FetchEnd(log) {
      es := FlushEvents(k, w, 0);
    } else {
      RunKeepsInv(s, FlushEvents(k, w, 0));
      var rest := UnreadReachesTable(s', k, i, w);
      RunConcat(s, FlushEvents(k, w, 0), rest);
      es := FlushEvents(k, w, 0) + rest;
    }
  }

  lemma DeliverableIsDelivered(s: System, k: Room, i: nat) returns (es: seq<Event>)
    requires Inv(s) && HasEntry(s, k, i) && Deliverable(s, k, i)
    ensures CanRun(s, es) && EntryRow(s, k, i) in Run(s, es).table
  {
    var log := s.rooms[k];
    if EntryRow(s, k, i) in s.table {
      es := [];
    } else if Undelivered(log, i) {
      SomeFresh(log.flights.Keys);
      var w :| w !in log.flights.Keys;
      var register := Event(k, Register);
      StepKeepsInv(s, register);
      var rest := UnreadReachesTable(Next(s, register), k, i, w);
      es := [register] + rest;
      assert es[1..] == rest;
    } else {
      var w :| Awaits(log, w, i);
      var f := log.flights[w];
      InsertAddsBatch(s, k, f.lo, f.hi);
      es := [Event(k, Insert(w))];
      assert Run(s, es) == Next(s, es[0]);
    }
  }

  /**
   * The exact condition for delivery: some continuation puts the entry into the table if and only if it is
   * there already, has not been read, or was read by a flush that is still about to insert it. The comment in
   * the worker promises a retry for the rest; the code has none.
   */
  lemma DeliveryIff(s: System, k: Room, i: nat)
    requires Inv(s) && HasEntry(s, k, i)
    ensures Deliverable(s, k, i) <==> exists es :: CanRun(s, es) && EntryRow(s, k, i) in Run(s, es).table
  {
    if Deliverable(s, k, i) {
      var es := DeliverableIsDelivered(s, k, i);
    } else {
      forall es | CanRun(s, es)
        ensures EntryRow(s, k, i) !in Run(s, es).table
      {
        RunKeepsEntries(s, es, k, i);
        LostForever(s, es, k, i);
      }
    }
  }

  /** In particular, a batch whose INSERT failed never reaches the table. */
  lemma FailedInsertIsNeverRetried(s: System, e: Event, i: nat, es: seq<Event>)
    requires Inv(s) && Enabled(s, e) && e.op.Abort?
    requires Holds(LogOf(s, e.room), e.op.w, i) && LogOf(s, e.room).flights[e.op.w].Fetched?
    requires HasEntry(s, e.room, i) && EntryRow(s, e.room, i) !in s.table
    requires CanRun(Next(s, e), es)
    ensures EntryRow(s, e.room, i) !in Run(Next(s, e), es).table
    ensures Pending(LogOf(Run(Next(s, e), es), e.room), i)
  {
    var s' := Next(s, e);
    StepKeepsInv(s, e);
    FailedInsertStrands(s, e, i);
    StrandedForever(s', es, e.room, i);
    assert !Undelivered(s'.rooms[e.room], i);
    RunKeepsEntries(s', es, e.room, i);
    LostForever(s', es, e.room, i);
  }

  /** A fresh message in a room that is registered. */
  ghost function Started(q: Queued): System {
    System(map[q.room := RoomLog([q], true, 0, map[], {}, map[])], [])
  }

  lemma StartRuns(q: Queued)
    ensures var es := [Event(q.room, Enqueue(q)), Event(q.room, Register)]; CanRun(INITIAL, es) && Run(INITIAL, es) == Started(q)
  {
    var queue, register := Event(q.room, Enqueue(q)), Event(q.room, Register);
    var none: seq<Queued> := [];
    assert none + [q] == [q];
    var queued := System(map[q.room := RoomLog([q], false, 0, map[], {}, map[])], []);
    assert Enabled(INITIAL, queue) && Next(INITIAL, queue) == queued;
    assert Enabled(queued, register) && Next(queued, register) == Started(q);
    assert [queue, register][1..] == [register];
    OneStepRuns(queued, register);
  }

  lemma OneStepRuns(s: System, e: Event)
    requires Enabled(s, e)
    ensures CanRun(s, [e]) && Run(s, [e]) == Next(s, e)
  {
    assert [e][0] == e && [e][1..] == [];
    assert CanRun(Next(s, e), []) && Run(Next(s, e), []) == Next(s, e);
  }

  /** The same once a worker has read it. */
  ghost function Read(q: Queued): System {
    InRoom(Started(q), q.room, FetchedLog(Started(q).rooms[q.room], 0, 0), [])
  }

  lemma ReadRuns(q: Queued) returns (es: seq<Event>)
    ensures CanRun(INITIAL, es) && Run(INITIAL, es) == Read(q)
  {
    var k, s := q.room, Started(q);
    var fetch := [Event(k, Fetch(0, 0))];
    assert fetch + [] == fetch;
    FlushReads(s.rooms[k], 0, 0);
    StepThen(s, k, ClaimedLog(s.rooms[k], 0, 0), [], Fetch(0, 0), FetchedLog(s.rooms[k], 0, 0), [], Read(q));
    RecoveryThen(s, k, 0, 0, fetch, Read(q));
    StartRuns(q);
    RunConcat(INITIAL, [Event(k, Enqueue(q)), Event(k, Register)], Recovery(k, 0, 0) + fetch);
    es := [Event(k, Enqueue(q)), Event(k, Register)] + (Recovery(k, 0, 0) + fetch);
  }

  /**
   * And that happens: whatever message is queued, there is a run from the start in which a worker reads it and the
   * INSERT fails. It is never stored and pending for ever after.
   */
  lemma LossHappens(q: Queued) returns (es: seq<Event>, failure: Event)
    ensures CanRun(INITIAL, es) && Enabled(Run(INITIAL, es), failure) && failure.op.Abort?
    ensures HasEntry(Run(INITIAL, es), q.room, 0) && Run(INITIAL, es).rooms[q.room].entries[0] == q
    ensures forall later :: CanRun(Next(Run(INITIAL, es), failure), later) ==>
              var s := Run(Next(Run(INITIAL, es), failure), later); ToRow(q) !in s.table && Pending(LogOf(s, q.room), 0)
  {
    es := ReadRuns(q);
    var read := Read(q);
    failure := Event(q.room, Abort(0));
    InitialInv();
    RunKeepsInv(INITIAL, es);
    assert 0 in Range(0, 1);
    assert Holds(LogOf(read, q.room), 0, 0);
    forall later | CanRun(Next(read, failure), later)
      ensures var s := Run(Next(read, failure), later); ToRow(q) !in s.table && Pending(LogOf(s, q.room), 0)
    {
      FailedInsertIsNeverRetried(read, failure, 0, later);
    }
  }

  // ---- Clean runs deliver --------------------------------------------------------------------------------

  /** No INSERT fails and no worker crashes. */
  ghost predicate Clean(es: seq<Event>) {
    forall e :: e in es ==> !e.op.Abort?
  }

  /** Every pending entry is in the hands of a flush in progress. */
  ghost predicate NothingStranded(log: RoomLog) {
    forall i: nat :: Pending(log, i) ==> exists w :: Holds(log, w, i)
  }

  lemma CleanStep(log: RoomLog, table: seq<Row>, op: Op)
    requires LogInv(log, table) && LogEnabled(log, op) && !op.Abort? && NothingStranded(log)
    ensures NothingStranded(LogStep(log, op))
  {
    var log' := LogStep(log, op);
    forall i: nat | Pending(log', i)
      ensures exists w :: Holds(log', w, i)
    {
      if Pending(log, i) {
        var w :| Holds(log, w, i);
        assert Holds(log', w, i);
      } else {
        assert Holds(log', op.w, i);
      }
    }
  }

  lemma {:induction false} CleanRunStrandsNothing(s: System, es: seq<Event>)
    requires Inv(s) && CanRun(s, es) && Clean(es) && forall k :: k in s.rooms ==> NothingStranded(s.rooms[k])
    ensures forall k :: k in Run(s, es).rooms ==> NothingStranded(Run(s, es).rooms[k])
    decreases es
  {
    if es != [] {
      EmptyLogInv(s.table);
      assert LogInv(LogOf(s, es[0].room), s.table);
      assert es[0] in es;
      CleanStep(LogOf(s, es[0].room), s.table, es[0].op);
      StepKeepsInv(s, es[0]);
      assert forall e :: e in es[1..] ==> e in es;
      CleanRunStrandsNothing(Next(s, es[0]), es[1..]);
    }
  }

  /** The worker has caught up with the stream: nothing left to read, nothing in flight. */
  ghost predicate Drained(log: RoomLog) {
    log.next == |log.entries| && forall w, i: nat :: !Holds(log, w, i)
  }

  /** After a clean run, the table holds every entry of a drained stream, and all of them are acknowledged. */
  lemma CleanRunDelivers(es: seq<Event>, k: Room, i: nat)
    requires CanRun(INITIAL, es) && Clean(es)
    requires HasEntry(Run(INITIAL, es), k, i) && Drained(Run(INITIAL, es).rooms[k])
    ensures EntryRow(Run(INITIAL, es), k, i) in Run(INITIAL, es).table
    ensures Acknowledged(Run(INITIAL, es).rooms[k], i)
  {
    var s := Run(INITIAL, es);
    InitialInv();
    RunKeepsInv(INITIAL, es);
    CleanRunStrandsNothing(INITIAL, es);
    var log := s.rooms[k];
    assert ExactlyOne(Undelivered(log, i), Pending(log, i), Acknowledged(log, i));
    assert NothingStranded(log);
    assert !Pending(log, i);
  }

  // ---- Claims change owners, nothing else ----------------------------------------------------------------

  ghost predicate SameFlight(f: Flight, g: Flight) {
    f == g || (f.Recovering? && g.Recovering?)
  }

  /** Equal but for the owners and idle times on the pending list, and the stale ids computed from them. */
  ghost predicate SameButOwners(log: RoomLog, log': RoomLog) {
    && log.entries == log'.entries && log.grouped == log'.grouped && log.next == log'.next
    && log.acked == log'.acked && log.pending.Keys == log'.pending.Keys
    && log.flights.Keys == log'.flights.Keys
    && forall w :: w in log.flights ==> SameFlight(log.flights[w], log'.flights[w])
  }

  ghost predicate SameSystemButOwners(s: System, t: System) {
    && s.table == t.table && s.rooms.Keys == t.rooms.Keys
    && forall k :: k in s.rooms ==> SameButOwners(s.rooms[k], t.rooms[k])
  }

  lemma SameStep(log: RoomLog, log': RoomLog, op: Op)
    requires SameButOwners(log, log') && LogEnabled(log, op)
    ensures LogEnabled(log', op) && SameButOwners(LogStep(log, op), LogStep(log', op))
  {
  }

  lemma SameSystemStep(s: System, t: System, e: Event)
    requires SameSystemButOwners(s, t) && Enabled(s, e)
    ensures Enabled(t, e) && SameSystemButOwners(Next(s, e), Next(t, e))
  {
    var log, log' := LogOf(s, e.room), LogOf(t, e.room);
    assert SameButOwners(log, log');
    SameStep(log, log', e.op);
    if e.op.Enqueue? {
      assert FreshId(t, e.op.q.id);
    }
    assert NextTable(s, e) == NextTable(t, e);
  }

  lemma {:induction false} SameRun(s: System, t: System, es: seq<Event>)
    requires SameSystemButOwners(s, t) && CanRun(s, es)
    ensures CanRun(t, es) && SameSystemButOwners(Run(s, es), Run(t, es))
    decreases es
  {
    if es != [] {
      SameSystemStep(s, t, es[0]);
      SameRun(Next(s, es[0]), Next(t, es[0]), es[1..]);
    }
  }

  /** The state in which worker `w` has moved on without sending its XCLAIM. */
  ghost function WithoutClaim(s: System, k: Room, w: Worker): System
    requires k in s.rooms
  {
    System(s.rooms[k := s.rooms[k].(flights := s.rooms[k].flights[w := Recovered])], s.table)
  }

  lemma SameEitherWay(s: System, t: System)
    requires SameSystemButOwners(s, t)
    ensures SameSystemButOwners(t, s)
  {
  }

  /**
   * Leaving out an XCLAIM makes no difference to anything but owners: the same continuations are possible either
   * way, and lead to the same table, the same pending and acknowledged entries, and the same batches.
   */
  lemma ClaimIsInert(s: System, e: Event, es: seq<Event>)
    requires Enabled(s, e) && e.op.Claim?
    ensures CanRun(Next(s, e), es) <==> CanRun(WithoutClaim(s, e.room, e.op.w), es)
    ensures CanRun(Next(s, e), es) ==>
              SameSystemButOwners(Run(Next(s, e), es), Run(WithoutClaim(s, e.room, e.op.w), es))
  {
    var s', t := Next(s, e), WithoutClaim(s, e.room, e.op.w);
    assert SameSystemButOwners(s', t);
    SameEitherWay(s', t);
    if CanRun(s', es) {
      SameRun(s', t, es);
    }
    if CanRun(t, es) {
      SameRun(t, s', es);
    }
  }
}
