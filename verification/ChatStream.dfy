/**
 * The chat write-ahead log as a step machine: one Redis stream with a consumer group per room, one table,
 * and any number of workers whose flushes interleave, fail and crash between steps.
 */
module ChatStream {
  import opened Common
  import opened Messages

  type Worker = nat

  const BATCH_SIZE := 50
  /** Entries idle for longer are listed for a claim; XCLAIM itself asks for at least this much. */
  const STALE_MS := 5000

  /** One element of the pending entries list: who holds the entry, and since when. */
  datatype Delivery = Delivery(owner: Worker, at: int)

  /** How far one `flushStream` call has got. A batch is the entries [lo, hi) of the stream. */
  datatype Flight =
    | Recovering(stale: seq<nat>)   // XPENDING answered, XCLAIM not sent yet
    | Recovered                     // about to read
    | Fetched(lo: nat, hi: nat)     // XREADGROUP answered, INSERT not done yet
    | Inserted(lo: nat, hi: nat)    // INSERT committed, XACK not done yet

  /**
   * The stream of a room. Entry ids only grow, so an entry is named by its position. `next` is the group's
   * last-delivered position; `acked` records what XACK has removed from the pending list.
   */
  datatype RoomLog = RoomLog(entries: seq<Queued>, grouped: bool, next: nat, pending: map<nat, Delivery>,
                             acked: set<nat>, flights: map<Worker, Flight>)

  const EMPTY_LOG := RoomLog([], false, 0, map[], {}, map[])

  datatype System = System(rooms: map<Room, RoomLog>, table: seq<Row>)

  const INITIAL := System(map[], [])

  datatype Op =
    | Enqueue(q: Queued)
    | Register
    | Begin(w: Worker, now: int)
    | Claim(w: Worker, now: int)
    | Fetch(w: Worker, now: int)
    | Insert(w: Worker)
    | Ack(w: Worker)
    | Abort(w: Worker)   // a failed INSERT, a lost connection, or a crash of the process

  datatype Event = Event(room: Room, op: Op)

  function LogOf(s: System, k: Room): RoomLog {
    if k in s.rooms then s.rooms[k] else EMPTY_LOG
  }

  /** The rows built from a batch. */
  function Rows(entries: seq<Queued>): (rows: seq<Row>)
    ensures |rows| == |entries| && forall i :: 0 <= i < |rows| ==> rows[i] == ToRow(entries[i])
  {
    seq(|entries|, i requires 0 <= i < |entries| => ToRow(entries[i]))
  }

  /** The first `count` pending positions from `from` on, in stream order: XPENDING - + count. */
  function Oldest(pending: map<nat, Delivery>, from: nat, next: nat, count: nat): (ids: seq<nat>)
    ensures forall i :: i in ids ==> i in pending
    decreases next - from
  {
    if from >= next || count == 0 then []
    else if from in pending then [from] + Oldest(pending, from + 1, next, count - 1)
    else Oldest(pending, from + 1, next, count)
  }

  function StaleIds(log: RoomLog, now: int): seq<nat> {
    Filter(Oldest(log.pending, 0, log.next, BATCH_SIZE),
           i => i in log.pending && now - log.pending[i].at > STALE_MS)
  }

  /** The pending positions from `from` up to, not including, `i`. */
  ghost function PendingBefore(pending: map<nat, Delivery>, from: nat, i: nat): set<nat> {
    set j | j in pending && from <= j < i
  }

  lemma {:induction false} OldestExact(pending: map<nat, Delivery>, from: nat, next: nat, count: nat, i: nat)
    ensures i in Oldest(pending, from, next, count) <==>
            from <= i < next && i in pending && |PendingBefore(pending, from, i)| < count
    decreases next - from
  {
    if from < next && count > 0 {
      var here, later := PendingBefore(pending, from, i), PendingBefore(pending, from + 1, i);
      OldestExact(pending, from + 1, next, if from in pending then count - 1 else count, i);
      if from in pending && from < i {
        assert here == {from} + later;
      } else if from in pending {
        assert here == {};
      } else {
        assert here == later;
      }
    }
  }

  /** Listed for a claim: pending, idle for more than 5 s, and one of the 50 oldest pending entries. */
  lemma StaleIdsExact(log: RoomLog, now: int, i: nat)
    ensures i in StaleIds(log, now) <==>
            i < log.next && i in log.pending && now - log.pending[i].at > 5000 && |PendingBefore(log.pending, 0, i)| < 50
  {
    OldestExact(log.pending, 0, log.next, BATCH_SIZE, i);
    FilterMembers(Oldest(log.pending, 0, log.next, BATCH_SIZE),
                  i => i in log.pending && now - log.pending[i].at > STALE_MS);
  }

  /** XCLAIM: entries that are still pending and idle long enough change owner. */
  function Claimed(pending: map<nat, Delivery>, ids: seq<nat>, w: Worker, now: int): map<nat, Delivery> {
    map i | i in pending ::
      if i in ids && now - pending[i].at >= STALE_MS then Delivery(w, now) else pending[i]
  }

  function FetchEnd(log: RoomLog): nat
    requires log.next <= |log.entries|
  {
    Min(log.next + BATCH_SIZE, |log.entries|)
  }

  /** The id has not been generated before. */
  ghost predicate FreshId(s: System, id: Id) {
    && (forall k, i :: k in s.rooms && 0 <= i < |s.rooms[k].entries| ==> s.rooms[k].entries[i].id != id)
    && !HasId(s.table, id)
  }

  predicate LogEnabled(log: RoomLog, op: Op) {
    match op
    case Enqueue(_) => true
    case Register => true
    case Begin(w, _) => w !in log.flights
    case Claim(w, _) => w in log.flights && log.flights[w].Recovering?
    case Fetch(w, _) => w in log.flights && log.flights[w].Recovered? && log.next <= |log.entries|
    case Insert(w) =>
      w in log.flights && log.flights[w].Fetched? && log.flights[w].lo <= log.flights[w].hi <= |log.entries|
    case Ack(w) => w in log.flights && log.flights[w].Inserted?
    case Abort(w) => w in log.flights
  }

  /** The entries of the batch that a flight carries. */
  function Holding(f: Flight): set<nat> {
    if f.Fetched? || f.Inserted? then Range(f.lo, f.hi) else {}
  }

  /** What one step does to the stream, the group and the flights of its room. */
  function LogStep(log: RoomLog, op: Op): RoomLog
    requires LogEnabled(log, op)
  {
    match op
    case Enqueue(q) => log.(entries := log.entries + [q])
    case Register => log.(grouped := true)
    case Begin(w, now) => log.(flights := log.flights[w := Recovering(StaleIds(log, now))])
    case Claim(w, now) =>
      log.(pending := Claimed(log.pending, log.flights[w].stale, w, now), flights := log.flights[w := Recovered])
    case Fetch(w, now) =>
      if !log.grouped || log.next == |log.entries| then log.(flights := log.flights - {w})
      else
        log.(pending := Assigned(log.pending, log.next, FetchEnd(log), w, now), next := FetchEnd(log),
             flights := log.flights[w := Fetched(log.next, FetchEnd(log))])
    case Insert(w) => log.(flights := log.flights[w := Inserted(log.flights[w].lo, log.flights[w].hi)])
    case Ack(w) =>
      log.(pending := log.pending - Holding(log.flights[w]), acked := log.acked + Holding(log.flights[w]),
           flights := log.flights - {w})
    case Abort(w) => log.(flights := log.flights - {w})
  }

  /** XREADGROUP puts the entries it returns on the pending list of the reader. */
  function Assigned(pending: map<nat, Delivery>, lo: nat, hi: nat, w: Worker, now: int): map<nat, Delivery> {
    pending + (map i | i in Range(lo, hi) :: Delivery(w, now))
  }

  ghost predicate Enabled(s: System, e: Event) {
    LogEnabled(LogOf(s, e.room), e.op) && (e.op.Enqueue? ==> e.op.q.room == e.room && FreshId(s, e.op.q.id))
  }

  ghost function NextLog(s: System, e: Event): RoomLog
    requires Enabled(s, e)
  {
    LogStep(LogOf(s, e.room), e.op)
  }

  /** The table after the batch [lo, hi) of room `k` has been inserted. */
  ghost function AfterInsert(s: System, k: Room, lo: nat, hi: nat): seq<Row>
    requires lo <= hi <= |LogOf(s, k).entries|
  {
    InsertIgnore(s.table, Rows(LogOf(s, k).entries[lo..hi]))
  }

  ghost function NextTable(s: System, e: Event): seq<Row>
    requires Enabled(s, e)
  {
    if e.op.Insert? then
      var f := LogOf(s, e.room).flights[e.op.w];
      AfterInsert(s, e.room, f.lo, f.hi)
    else s.table
  }

  ghost function Next(s: System, e: Event): System
    requires Enabled(s, e)
  {
    System(s.rooms[e.room := NextLog(s, e)], NextTable(s, e))
  }

  ghost predicate CanRun(s: System, es: seq<Event>)
    decreases es
  {
    es == [] || (Enabled(s, es[0]) && CanRun(Next(s, es[0]), es[1..]))
  }

  ghost function Run(s: System, es: seq<Event>): System
    requires CanRun(s, es)
    decreases es
  {
    if es == [] then s else Run(Next(s, es[0]), es[1..])
  }

  lemma {:induction false} RunConcat(s: System, a: seq<Event>, b: seq<Event>)
    requires CanRun(s, a) && CanRun(Run(s, a), b)
    ensures CanRun(s, a + b) && Run(s, a + b) == Run(Run(s, a), b)
    decreases a
  {
    if a == [] {
      assert a + b == b;
    } else {
      assert (a + b)[1..] == a[1..] + b;
      RunConcat(Next(s, a[0]), a[1..], b);
    }
  }

  // ---- The invariant -------------------------------------------------------------------------------------

  /** Where an entry is. The three states are exclusive and cover every entry of the stream. */
  ghost predicate Undelivered(log: RoomLog, i: nat) { log.next <= i < |log.entries| }
  ghost predicate Pending(log: RoomLog, i: nat) { i in log.pending }
  ghost predicate Acknowledged(log: RoomLog, i: nat) { i in log.acked }

  ghost predicate ExactlyOne(a: bool, b: bool, c: bool) {
    (a && !b && !c) || (!a && b && !c) || (!a && !b && c)
  }

  ghost predicate Partitioned(log: RoomLog) {
    && log.next <= |log.entries|
    && (!log.grouped ==> log.next == 0)
    && (forall i :: 0 <= i < |log.entries| ==>
          ExactlyOne(Undelivered(log, i), Pending(log, i), Acknowledged(log, i)))
    && (forall i: nat :: Pending(log, i) ==> i < |log.entries|)
    && (forall i: nat :: Acknowledged(log, i) ==> i < |log.entries|)
  }

  ghost predicate Holds(log: RoomLog, w: Worker, i: nat) {
    w in log.flights && i in Holding(log.flights[w])
  }

  /** Batches in flight are nonempty, still pending, and belong to one worker each. */
  ghost predicate FlightsDisjoint(log: RoomLog) {
    && (forall w :: w in log.flights && (log.flights[w].Fetched? || log.flights[w].Inserted?) ==>
          log.flights[w].lo < log.flights[w].hi <= log.next)
    && (forall w, i: nat :: Holds(log, w, i) ==> Pending(log, i))
    && (forall v, w, i: nat :: Holds(log, v, i) && Holds(log, w, i) ==> v == w)
  }

  /** What has been inserted, by a worker about to acknowledge or earlier, is in the table. */
  ghost predicate Stored(log: RoomLog, table: seq<Row>) {
    && (forall i :: 0 <= i < |log.entries| && Acknowledged(log, i) ==> ToRow(log.entries[i]) in table)
    && (forall w, i :: 0 <= i < |log.entries| && Holds(log, w, i) && log.flights[w].Inserted? ==>
          ToRow(log.entries[i]) in table)
  }

  ghost predicate LogInv(log: RoomLog, table: seq<Row>) {
    Partitioned(log) && FlightsDisjoint(log) && Stored(log, table)
  }

  /** One id, one entry; entries lie in the stream of their own room. */
  ghost predicate EntryIdsUnique(s: System) {
    && (forall k, i :: k in s.rooms && 0 <= i < |s.rooms[k].entries| ==> s.rooms[k].entries[i].room == k)
    && (forall k, i, l, j ::
          (k in s.rooms && l in s.rooms && 0 <= i < |s.rooms[k].entries| && 0 <= j < |s.rooms[l].entries|
           && s.rooms[k].entries[i].id == s.rooms[l].entries[j].id)
          ==> k == l && i == j)
  }

  /** Every row was queued: it is the row of some entry of its room's stream. */
  ghost predicate Provenance(s: System) {
    forall r :: r in s.table ==>
      r.room in s.rooms && exists i :: 0 <= i < |s.rooms[r.room].entries| && ToRow(s.rooms[r.room].entries[i]) == r
  }

  ghost predicate Inv(s: System) {
    && EntryIdsUnique(s)
    && UniqueIds(s.table)
    && Provenance(s)
    && (forall k :: k in s.rooms ==> LogInv(s.rooms[k], s.table))
  }

  /** Each row equals the entry that was queued under its id, its sender included. */
  lemma RowsAreFaithful(s: System, r: Row, k: Room, i: nat)
    requires Inv(s) && r in s.table
    requires k in s.rooms && i < |s.rooms[k].entries| && s.rooms[k].entries[i].id == r.id
    ensures r == ToRow(s.rooms[k].entries[i]) && Records(r, s.rooms[k].entries[i])
  {
    var j :| 0 <= j < |s.rooms[r.room].entries| && ToRow(s.rooms[r.room].entries[j]) == r;
    assert s.rooms[r.room].entries[j].id == s.rooms[k].entries[i].id;
  }

  lemma InsertAddsBatch(s: System, k: Room, lo: nat, hi: nat)
    requires Inv(s) && k in s.rooms && lo <= hi <= |s.rooms[k].entries|
    ensures forall i :: lo <= i < hi ==> ToRow(s.rooms[k].entries[i]) in AfterInsert(s, k, lo, hi)
  {
    var batch := s.rooms[k].entries[lo..hi];
    var rows := Rows(batch);
    forall r, q | r in s.table + rows && q in s.table + rows && r.id == q.id
      ensures r == q
    {
      SameIdSameRow(s, k, lo, hi, r, q);
    }
    InsertIgnoreHasAll(s.table, rows);
    forall i | lo <= i < hi
      ensures ToRow(s.rooms[k].entries[i]) in AfterInsert(s, k, lo, hi)
    {
      assert rows[i - lo] == ToRow(batch[i - lo]) && batch[i - lo] == s.rooms[k].entries[i];
      assert rows[i - lo] in rows;
    }
  }

  lemma InsertAddsOnlyBatch(s: System, k: Room, lo: nat, hi: nat, r: Row) returns (i: nat)
    requires k in s.rooms && lo <= hi <= |s.rooms[k].entries|
    requires r in AfterInsert(s, k, lo, hi) && r !in s.table
    ensures lo <= i < hi && r == ToRow(s.rooms[k].entries[i])
  {
    InsertIgnoreKeeps(s.table, Rows(s.rooms[k].entries[lo..hi]));
    i := RowOfBatch(s.rooms[k].entries, lo, hi, r);
  }

  lemma RowOfBatch(entries: seq<Queued>, lo: nat, hi: nat, r: Row) returns (i: nat)
    requires lo <= hi <= |entries| && r in Rows(entries[lo..hi])
    ensures lo <= i < hi && ToRow(entries[i]) == r
  {
    var rows := Rows(entries[lo..hi]);
    var j :| 0 <= j < |rows| && rows[j] == r;
    i := lo + j;
    assert entries[lo..hi][j] == entries[i];
  }

  lemma SameIdSameRow(s: System, k: Room, lo: nat, hi: nat, r: Row, q: Row)
    requires Inv(s) && k in s.rooms && lo <= hi <= |s.rooms[k].entries| && r.id == q.id
    requires r in s.table + Rows(s.rooms[k].entries[lo..hi]) && q in s.table + Rows(s.rooms[k].entries[lo..hi])
    ensures r == q
  {
    var l, i := Origin(s, k, lo, hi, r);
    var m, j := Origin(s, k, lo, hi, q);
  }

  lemma Origin(s: System, k: Room, lo: nat, hi: nat, r: Row) returns (l: Room, i: nat)
    requires Inv(s) && k in s.rooms && lo <= hi <= |s.rooms[k].entries|
    requires r in s.table + Rows(s.rooms[k].entries[lo..hi])
    ensures l in s.rooms && i < |s.rooms[l].entries| && ToRow(s.rooms[l].entries[i]) == r
  {
    if r in s.table {
      l := r.room;
      i :| 0 <= i < |s.rooms[l].entries| && ToRow(s.rooms[l].entries[i]) == r;
    } else {
      l := k;
      i := RowOfBatch(s.rooms[k].entries, lo, hi, r);
    }
  }

  // ---- Every step keeps the invariant --------------------------------------------------------------------

  lemma EmptyLogInv(table: seq<Row>)
    ensures LogInv(EMPTY_LOG, table)
  {
  }

  lemma LogInvMonotone(log: RoomLog, t: seq<Row>, u: seq<Row>)
    requires LogInv(log, t) && forall r :: r in t ==> r in u
    ensures LogInv(log, u)
  {
  }

  /** The partition depends on lengths and id sets only. */
  lemma PartitionedAgain(log: RoomLog, log': RoomLog)
    requires Partitioned(log) && |log.entries| <= |log'.entries| && log'.next == log.next
    requires log'.pending.Keys == log.pending.Keys && log'.acked == log.acked
    requires log.grouped ==> log'.grouped
    ensures Partitioned(log')
    ensures forall i: nat :: Pending(log', i) == Pending(log, i) && Acknowledged(log', i) == Acknowledged(log, i)
  {
    assert forall i: nat :: Pending(log', i) == Pending(log, i);
    assert forall i: nat :: Acknowledged(log', i) == Acknowledged(log, i);
    forall i | 0 <= i < |log'.entries|
      ensures ExactlyOne(Undelivered(log', i), Pending(log', i), Acknowledged(log', i))
    {
      if i < |log.entries| {
        assert ExactlyOne(Undelivered(log, i), Pending(log, i), Acknowledged(log, i));
        assert Undelivered(log', i) == Undelivered(log, i);
      }
    }
  }

  lemma EnqueueKeepsLog(s: System, e: Event)
    requires Enabled(s, e) && LogInv(LogOf(s, e.room), s.table) && e.op.Enqueue?
    ensures LogInv(NextLog(s, e), s.table)
  {
    var log, log' := LogOf(s, e.room), NextLog(s, e);
    assert forall i: nat :: 0 <= i < |log.entries| ==> log'.entries[i] == log.entries[i];
    PartitionedAgain(log, log');
    assert forall w, i: nat :: Holds(log', w, i) == Holds(log, w, i);
    forall w, i | 0 <= i < |log'.entries| && Holds(log', w, i) && log'.flights[w].Inserted?
      ensures ToRow(log'.entries[i]) in s.table
    {
      assert Pending(log, i);
    }
  }

  lemma RecoverKeepsLog(s: System, e: Event)
    requires Enabled(s, e) && LogInv(LogOf(s, e.room), s.table)
    requires e.op.Register? || e.op.Begin? || e.op.Claim? || e.op.Abort?
    ensures LogInv(NextLog(s, e), s.table)
  {
    var log, log' := LogOf(s, e.room), NextLog(s, e);
    PartitionedAgain(log, log');
    assert forall w, i: nat :: Holds(log', w, i) ==> Holds(log, w, i);
  }

  lemma FetchKeepsLog(s: System, e: Event)
    requires Enabled(s, e) && LogInv(LogOf(s, e.room), s.table) && e.op.Fetch?
    ensures LogInv(NextLog(s, e), s.table)
  {
    var log, log' := LogOf(s, e.room), NextLog(s, e);
    var w := e.op.w;
    if !log.grouped || log.next == |log.entries| {
      PartitionedAgain(log, log');
      assert forall v, i: nat :: Holds(log', v, i) ==> Holds(log, v, i);
    } else {
      var hi := FetchEnd(log);
      assert forall i: nat :: Pending(log', i) <==> Pending(log, i) || log.next <= i < hi;
      assert forall i: nat :: Acknowledged(log', i) == Acknowledged(log, i);
      assert forall v, i: nat :: Holds(log', v, i) ==> (v == w && log.next <= i < hi) || (v != w && Holds(log, v, i));
      assert forall v, i: nat :: Holds(log, v, i) ==> i < log.next by {
        forall v, i: nat | Holds(log, v, i)
          ensures i < log.next
        {
          assert Pending(log, i);
          assert !Undelivered(log, i);
        }
      }
      forall i | 0 <= i < |log'.entries|
        ensures ExactlyOne(Undelivered(log', i), Pending(log', i), Acknowledged(log', i))
      {
        assert ExactlyOne(Undelivered(log, i), Pending(log, i), Acknowledged(log, i));
      }
    }
  }

  lemma InsertKeepsLog(s: System, e: Event)
    requires Inv(s) && Enabled(s, e) && e.op.Insert?
    ensures LogInv(NextLog(s, e), NextTable(s, e))
  {
    var k := e.room;
    assert k in s.rooms;
    var log, log', table := s.rooms[k], NextLog(s, e), NextTable(s, e);
    var f := log.flights[e.op.w];
    assert log'.flights == log.flights[e.op.w := Inserted(f.lo, f.hi)];
    PartitionedAgain(log, log');
    assert forall v, i: nat :: Holds(log', v, i) == Holds(log, v, i);
    assert Stored(log', table) by {
      InsertAddsBatch(s, k, f.lo, f.hi);
      InsertIgnoreKeeps(s.table, Rows(log.entries[f.lo..f.hi]));
      StoredAfterInsert(log, log', e.op.w, s.table, table);
    }
  }

  lemma StoredAfterInsert(log: RoomLog, log': RoomLog, w: Worker, t: seq<Row>, u: seq<Row>)
    requires Stored(log, t) && t <= u
    requires w in log.flights && log.flights[w].Fetched? && log.flights[w].hi <= |log.entries|
    requires forall i :: log.flights[w].lo <= i < log.flights[w].hi ==> ToRow(log.entries[i]) in u
    requires log' == log.(flights := log.flights[w := Inserted(log.flights[w].lo, log.flights[w].hi)])
    ensures Stored(log', u)
  {
    forall i | 0 <= i < |log'.entries| && Acknowledged(log', i)
      ensures ToRow(log'.entries[i]) in u
    {
      assert Acknowledged(log, i);
    }
    forall v, i | 0 <= i < |log'.entries| && Holds(log', v, i) && log'.flights[v].Inserted?
      ensures ToRow(log'.entries[i]) in u
    {
      assert v != w ==> Holds(log, v, i);
    }
  }

  lemma AckKeepsLog(s: System, e: Event)
    requires Enabled(s, e) && LogInv(LogOf(s, e.room), s.table) && e.op.Ack?
    ensures LogInv(NextLog(s, e), s.table)
  {
    var log, log' := LogOf(s, e.room), NextLog(s, e);
    var w := e.op.w;
    var batch := Holding(log.flights[w]);
    assert forall i: nat :: i in batch <==> Holds(log, w, i);
    assert forall i: nat :: Pending(log', i) <==> Pending(log, i) && i !in batch;
    assert forall i: nat :: Acknowledged(log', i) <==> Acknowledged(log, i) || i in batch;
    assert forall v, i: nat :: Holds(log', v, i) <==> v != w && Holds(log, v, i);
    forall i | 0 <= i < |log'.entries|
      ensures ExactlyOne(Undelivered(log', i), Pending(log', i), Acknowledged(log', i))
    {
      assert ExactlyOne(Undelivered(log, i), Pending(log, i), Acknowledged(log, i));
      assert Undelivered(log', i) == Undelivered(log, i);
    }
    assert forall v, i: nat :: Holds(log', v, i) ==> Pending(log', i);
  }

  lemma EnqueueKeepsIds(s: System, e: Event)
    requires Inv(s) && Enabled(s, e) && e.op.Enqueue?
    ensures EntryIdsUnique(Next(s, e))
  {
    var s' := Next(s, e);
    var n := |LogOf(s, e.room).entries|;
    assert s'.rooms[e.room].entries == LogOf(s, e.room).entries + [e.op.q];
    forall k, i, l, j |
        k in s'.rooms && l in s'.rooms && 0 <= i < |s'.rooms[k].entries| && 0 <= j < |s'.rooms[l].entries|
        && s'.rooms[k].entries[i].id == s'.rooms[l].entries[j].id
      ensures k == l && i == j
    {
      var newK, newL := k == e.room && i == n, l == e.room && j == n;
      assert !newK ==> k in s.rooms && i < |s.rooms[k].entries| && s.rooms[k].entries[i] == s'.rooms[k].entries[i];
      assert !newL ==> l in s.rooms && j < |s.rooms[l].entries| && s.rooms[l].entries[j] == s'.rooms[l].entries[j];
    }
  }

  lemma EnqueueKeepsProvenance(s: System, e: Event)
    requires Inv(s) && Enabled(s, e) && e.op.Enqueue?
    ensures Provenance(Next(s, e))
  {
    var s' := Next(s, e);
    forall r | r in s'.table
      ensures r.room in s'.rooms
      ensures exists i :: 0 <= i < |s'.rooms[r.room].entries| && ToRow(s'.rooms[r.room].entries[i]) == r
    {
      var i :| 0 <= i < |s.rooms[r.room].entries| && ToRow(s.rooms[r.room].entries[i]) == r;
      assert s'.rooms[r.room].entries[i] == s.rooms[r.room].entries[i];
    }
  }

  lemma StepKeepsEntries(log: RoomLog, op: Op)
    requires LogEnabled(log, op) && !op.Enqueue?
    ensures LogStep(log, op).entries == log.entries
  {
  }

  lemma IdsUnchanged(s: System, s': System)
    requires EntryIdsUnique(s)
    requires forall k :: k in s'.rooms ==> s'.rooms[k].entries == LogOf(s, k).entries
    ensures EntryIdsUnique(s')
  {
    assert forall k :: k in s'.rooms && k !in s.rooms ==> s'.rooms[k].entries == [];
  }

  lemma SameEntries(s: System, e: Event)
    requires Enabled(s, e) && !e.op.Enqueue?
    ensures forall k :: k in Next(s, e).rooms ==> Next(s, e).rooms[k].entries == LogOf(s, k).entries
    ensures forall k :: k in s.rooms ==> k in Next(s, e).rooms
    ensures e.room in Next(s, e).rooms
  {
    StepKeepsEntries(LogOf(s, e.room), e.op);
  }

  lemma EntriesUnchanged(s: System, e: Event)
    requires Inv(s) && Enabled(s, e) && !e.op.Enqueue?
    ensures EntryIdsUnique(Next(s, e)) && Provenance(Next(s, e))
  {
    SameEntries(s, e);
    IdsUnchanged(s, Next(s, e));
    ProvenanceUnchanged(s, e, Next(s, e));
  }

  lemma ProvenanceUnchanged(s: System, e: Event, s': System)
    requires Inv(s) && Enabled(s, e) && s'.table == NextTable(s, e)
    requires e.room in s'.rooms && s'.rooms[e.room].entries == LogOf(s, e.room).entries
    requires forall k :: k in s.rooms ==> k in s'.rooms && s'.rooms[k].entries == s.rooms[k].entries
    ensures Provenance(s')
  {
    forall r | r in s'.table
      ensures r.room in s'.rooms
      ensures exists i :: 0 <= i < |s'.rooms[r.room].entries| && ToRow(s'.rooms[r.room].entries[i]) == r
    {
      if r in s.table {
        var i :| 0 <= i < |s.rooms[r.room].entries| && ToRow(s.rooms[r.room].entries[i]) == r;
        assert s'.rooms[r.room].entries[i] == s.rooms[r.room].entries[i];
      } else {
        var f := LogOf(s, e.room).flights[e.op.w];
        var i := InsertAddsOnlyBatch(s, e.room, f.lo, f.hi, r);
        assert r == ToRow(s'.rooms[e.room].entries[i]);
      }
    }
  }

  lemma StepKeepsTable(s: System, e: Event)
    requires Inv(s) && Enabled(s, e)
    ensures s.table <= Next(s, e).table && UniqueIds(Next(s, e).table)
  {
    if e.op.Insert? {
      var f := LogOf(s, e.room).flights[e.op.w];
      InsertIgnoreKeeps(s.table, Rows(LogOf(s, e.room).entries[f.lo..f.hi]));
    }
  }

  lemma LogOfInv(s: System, k: Room)
    requires Inv(s)
    ensures LogInv(LogOf(s, k), s.table)
  {
    EmptyLogInv(s.table);
  }

  lemma StepKeepsLog(s: System, e: Event)
    requires Inv(s) && Enabled(s, e)
    ensures LogInv(NextLog(s, e), NextTable(s, e))
  {
    LogOfInv(s, e.room);
    match e.op
    case Enqueue(_) => EnqueueKeepsLog(s, e);
    case Register => RecoverKeepsLog(s, e);
    case Begin(_, _) => RecoverKeepsLog(s, e);
    case Claim(_, _) => RecoverKeepsLog(s, e);
    case Fetch(_, _) => FetchKeepsLog(s, e);
    case Insert(_) => InsertKeepsLog(s, e);
    case Ack(_) => AckKeepsLog(s, e);
    case Abort(_) => RecoverKeepsLog(s, e);
  }

  lemma StepKeepsEntryIds(s: System, e: Event)
    requires Inv(s) && Enabled(s, e)
    ensures EntryIdsUnique(Next(s, e)) && Provenance(Next(s, e))
  {
    if e.op.Enqueue? {
      EnqueueKeepsIds(s, e);
      EnqueueKeepsProvenance(s, e);
    } else {
      EntriesUnchanged(s, e);
    }
  }

  lemma StepKeepsInv(s: System, e: Event)
    requires Inv(s) && Enabled(s, e)
    ensures Inv(Next(s, e))
  {
    var s' := Next(s, e);
    StepKeepsEntryIds(s, e);
    StepKeepsTable(s, e);
    forall k | k in s'.rooms
      ensures LogInv(s'.rooms[k], s'.table)
    {
      if k == e.room {
        StepKeepsLog(s, e);
      } else {
        LogInvMonotone(s.rooms[k], s.table, s'.table);
      }
    }
  }

  /**
   * Safety in every interleaving: each entry is undelivered, pending or acknowledged, and only one of these;
   * batches in flight do not overlap; what is acknowledged is in the table, once, as it was queued.
   */
  lemma {:induction false} RunKeepsInv(s: System, es: seq<Event>)
    requires Inv(s) && CanRun(s, es)
    ensures Inv(Run(s, es))
    decreases es
  {
    if es != [] {
      StepKeepsInv(s, es[0]);
      RunKeepsInv(Next(s, es[0]), es[1..]);
    }
  }
}
