/**
 * Every run, not only the clean ones: the messages that never reach the table are exactly those of batches whose
 * flush ended after reading them and before inserting them.
 */
module ChatLoss {
  import opened Common
  import opened Messages
  import opened ChatStream
  import opened ChatDelivery
  import opened ChatHistory
  import opened ChatEndToEnd
  import opened Reactions

  /** An entry that is unread, or read by a flush about to insert it. */
  ghost predicate OnItsWay(log: RoomLog, i: nat) {
    Undelivered(log, i) || exists w :: Awaits(log, w, i)
  }

  /** What is on its way is not stored yet. */
  ghost predicate NotYetStored(s: System) {
    forall k, i: nat :: HasEntry(s, k, i) && OnItsWay(s.rooms[k], i) ==> EntryRow(s, k, i) !in s.table
  }

  lemma WasOnItsWay(s: System, e: Event, k: Room, i: nat)
    requires Inv(s) && Enabled(s, e) && HasEntry(s, k, i) && OnItsWay(Next(s, e).rooms[k], i)
    ensures OnItsWay(s.rooms[k], i)
  {
    if w :| Awaits(Next(s, e).rooms[k], w, i) {
      if e.room == k && e.op.Fetch? && e.op.w == w {
        assert Awaits(s.rooms[k], w, i) || Undelivered(s.rooms[k], i);
      } else {
        assert Awaits(s.rooms[k], w, i);
      }
    }
  }

  lemma InsertEndsWay(s: System, e: Event, k: Room, i: nat)
    requires Inv(s) && Enabled(s, e) && e.room == k && e.op.Insert? && Awaits(LogOf(s, k), e.op.w, i)
    ensures !OnItsWay(Next(s, e).rooms[k], i)
  {
    var log, log' := s.rooms[k], Next(s, e).rooms[k];
    assert Pending(log, i) && i < |log.entries|;
    assert ExactlyOne(Undelivered(log, i), Pending(log, i), Acknowledged(log, i));
    assert forall w :: Awaits(log', w, i) ==> w != e.op.w && Holds(log, w, i);
  }

  lemma NewEntryNotStored(s: System, e: Event, k: Room, i: nat)
    requires Enabled(s, e) && HasEntry(Next(s, e), k, i) && !HasEntry(s, k, i) && Partitioned(LogOf(s, e.room))
    ensures EntryRow(Next(s, e), k, i) !in Next(s, e).table && Undelivered(Next(s, e).rooms[k], i)
  {
    assert e.room == k && e.op.Enqueue?;
    assert forall j :: 0 <= j < |s.table| ==> s.table[j].id != e.op.q.id;
  }

  lemma StepKeepsNotYetStored(s: System, e: Event)
    requires Inv(s) && Enabled(s, e) && NotYetStored(s)
    ensures NotYetStored(Next(s, e))
  {
    var s' := Next(s, e);
    LogOfInv(s, e.room);
    forall k, i: nat | HasEntry(s', k, i) && OnItsWay(s'.rooms[k], i)
      ensures EntryRow(s', k, i) !in s'.table
    {
      if HasEntry(s, k, i) {
        StepKeepsOneEntry(s, e, k, i);
        WasOnItsWay(s, e, k, i);
        if EntryRow(s, k, i) in s'.table {
          NewRowWasHeld(s, e, k, i);
          InsertEndsWay(s, e, k, i);
          assert false;
        }
      } else {
        LogOfInv(s, k);
        NewEntryNotStored(s, e, k, i);
      }
    }
  }

  lemma StepKeepsOneEntry(s: System, e: Event, k: Room, i: nat)
    requires Enabled(s, e) && HasEntry(s, k, i)
    ensures HasEntry(Next(s, e), k, i) && EntryRow(Next(s, e), k, i) == EntryRow(s, k, i)
  {
  }

  /** Some flush of the run ends between reading the entry and inserting it. */
  ghost predicate LostIn(s: System, es: seq<Event>, k: Room, i: nat)
    requires CanRun(s, es)
    decreases es
  {
    es != [] && (LosesAt(s, es[0], k, i) || LostIn(Next(s, es[0]), es[1..], k, i))
  }

  ghost predicate LosesAt(s: System, e: Event, k: Room, i: nat) {
    e.room == k && e.op.Abort? && Awaits(LogOf(s, k), e.op.w, i)
  }

  /** Not there yet, or still deliverable. */
  ghost predicate Alive(s: System, k: Room, i: nat) {
    HasEntry(s, k, i) ==> Deliverable(s, k, i)
  }

  lemma LosingLoses(s: System, e: Event, k: Room, i: nat)
    requires Inv(s) && NotYetStored(s) && Enabled(s, e) && LosesAt(s, e, k, i)
    ensures HasEntry(Next(s, e), k, i) && !Deliverable(Next(s, e), k, i)
  {
    var log, log' := LogOf(s, k), Next(s, e).rooms[k];
    LogOfInv(s, k);
    assert OnItsWay(log, i);
    assert Pending(log, i) && !Undelivered(log, i);
    StepKeepsOneEntry(s, e, k, i);
    assert forall w :: Awaits(log', w, i) ==> w != e.op.w && Holds(log, w, i);
  }

  lemma UnreadStaysAlive(s: System, e: Event, k: Room, i: nat)
    requires Inv(s) && Enabled(s, e) && HasEntry(s, k, i) && Undelivered(s.rooms[k], i)
    ensures OnItsWay(Next(s, e).rooms[k], i)
  {
    if !Undelivered(Next(s, e).rooms[k], i) {
      assert e.room == k && e.op.Fetch?;
      assert Awaits(Next(s, e).rooms[k], e.op.w, i);
    }
  }

  lemma ReadStaysAlive(s: System, e: Event, k: Room, i: nat, w: Worker)
    requires Inv(s) && Enabled(s, e) && HasEntry(s, k, i) && Awaits(s.rooms[k], w, i) && !LosesAt(s, e, k, i)
    ensures Awaits(Next(s, e).rooms[k], w, i) || EntryRow(s, k, i) in Next(s, e).table
  {
    if e.room == k && e.op.Insert? && e.op.w == w {
      var f := s.rooms[k].flights[w];
      InsertAddsBatch(s, k, f.lo, f.hi);
    }
  }

  lemma StaysAlive(s: System, e: Event, k: Room, i: nat)
    requires Inv(s) && Enabled(s, e) && Alive(s, k, i) && !LosesAt(s, e, k, i)
    ensures Alive(Next(s, e), k, i)
  {
    if HasEntry(s, k, i) {
      StepKeepsOneEntry(s, e, k, i);
      if EntryRow(s, k, i) in s.table {
        StepKeepsTable(s, e);
      } else if Undelivered(s.rooms[k], i) {
        UnreadStaysAlive(s, e, k, i);
      } else {
        var w :| Awaits(s.rooms[k], w, i);
        ReadStaysAlive(s, e, k, i, w);
      }
    } else if HasEntry(Next(s, e), k, i) {
      LogOfInv(s, e.room);
      NewEntryNotStored(s, e, k, i);
    }
  }

  /**
   * Over every run, an entry that could reach the table can still do so at the end if and only if no flush of the run
   * ended between reading it and inserting it.
   */
  lemma {:induction false} AliveIffNotLost(s: System, es: seq<Event>, k: Room, i: nat)
    requires Inv(s) && NotYetStored(s) && CanRun(s, es) && Alive(s, k, i)
    ensures Alive(Run(s, es), k, i) <==> !LostIn(s, es, k, i)
    ensures LostIn(s, es, k, i) ==> HasEntry(Run(s, es), k, i)
    decreases es
  {
    if es != [] {
      var s' := Next(s, es[0]);
      StepKeepsInv(s, es[0]);
      StepKeepsNotYetStored(s, es[0]);
      if LosesAt(s, es[0], k, i) {
        LosingLoses(s, es[0], k, i);
        LostForever(s', es[1..], k, i);
      } else {
        StaysAlive(s, es[0], k, i);
        AliveIffNotLost(s', es[1..], k, i);
      }
    }
  }

  /** In a drained room, the table holds an entry if and only if it was not lost in that way. */
  lemma StoredIffNotLost(es: seq<Event>, k: Room, i: nat)
    requires CanRun(INITIAL, es) && HasEntry(Run(INITIAL, es), k, i) && Drained(Run(INITIAL, es).rooms[k])
    ensures EntryRow(Run(INITIAL, es), k, i) in Run(INITIAL, es).table <==> !LostIn(INITIAL, es, k, i)
  {
    InitialInv();
    AliveIffNotLost(INITIAL, es, k, i);
    var log := Run(INITIAL, es).rooms[k];
    assert !Undelivered(log, i);
    assert forall w :: Awaits(log, w, i) ==> Holds(log, w, i);
  }

  /** The messages of a room, by position, without those that were lost. */
  ghost function Surviving(es: seq<Event>, room: Room, qs: seq<Queued>): seq<Queued>
    requires CanRun(INITIAL, es)
  {
    if qs == [] then []
    else Surviving(es, room, qs[..|qs| - 1]) + if LostIn(INITIAL, es, room, |qs| - 1) then [] else [qs[|qs| - 1]]
  }

  lemma {:induction false} SurvivingMembers(es: seq<Event>, room: Room, qs: seq<Queued>, q: Queued)
    requires CanRun(INITIAL, es)
    ensures q in Surviving(es, room, qs) <==> exists i :: 0 <= i < |qs| && qs[i] == q && !LostIn(INITIAL, es, room, i)
  {
    if qs != [] {
      var n := |qs| - 1;
      SurvivingMembers(es, room, qs[..n], q);
      if i :| 0 <= i < |qs| && qs[i] == q && !LostIn(INITIAL, es, room, i) {
        assert i < n ==> qs[..n][i] == q;
      }
      if i :| 0 <= i < n && qs[..n][i] == q && !LostIn(INITIAL, es, room, i) {
        assert qs[i] == q;
      }
    }
  }

  ghost predicate IdsDiffer(qs: seq<Queued>) {
    forall i, j :: 0 <= i < j < |qs| ==> qs[i].id != qs[j].id
  }

  lemma {:induction false} SurvivingDiffer(es: seq<Event>, room: Room, qs: seq<Queued>)
    requires CanRun(INITIAL, es)
    requires IdsDiffer(qs)
    ensures IdsDiffer(Surviving(es, room, qs))
  {
    if qs != [] {
      var n := |qs| - 1;
      assert IdsDiffer(qs[..n]);
      SurvivingDiffer(es, room, qs[..n]);
      var r := Surviving(es, room, qs[..n]);
      forall i | 0 <= i < |r|
        ensures r[i].id != qs[n].id
      {
        assert r[i] in r;
        SurvivingMembers(es, room, qs[..n], r[i]);
        var j :| 0 <= j < n && qs[..n][j] == r[i];
        assert qs[j] == r[i];
      }
      var all := Surviving(es, room, qs);
      assert all == r + if LostIn(INITIAL, es, room, n) then [] else [qs[n]];
      forall i, j | 0 <= i < j < |all|
        ensures all[i].id != all[j].id
      {
        assert i < |r| && all[i] == r[i];
        if j < |r| {
          assert all[j] == r[j] && r[i].id != r[j].id;
        } else {
          assert all[j] == qs[n];
        }
      }
    }
  }

  lemma HistoryRow(es: seq<Event>, room: Room, r: Row)
    requires CanRun(INITIAL, es) && Inv(Run(INITIAL, es)) && Drained(LogOf(Run(INITIAL, es), room))
    ensures var s, qs := Run(INITIAL, es), LogOf(Run(INITIAL, es), room).entries;
            r in History(s.table, room) <==> exists i :: 0 <= i < |qs| && ToRow(qs[i]) == r && !LostIn(INITIAL, es, room, i)
  {
    var s, qs := Run(INITIAL, es), LogOf(Run(INITIAL, es), room).entries;
    BelowSorted(s.table, room, None);
    if r in s.table && r.room == room {
      var i := RowEntry(s, r);
      StoredIffNotLost(es, room, i);
      assert ToRow(qs[i]) == r;
    }
    if i :| 0 <= i < |qs| && ToRow(qs[i]) == r && !LostIn(INITIAL, es, room, i) {
      StoredIffNotLost(es, room, i);
      assert qs[i].room == room;
    }
  }

  lemma SurvivingRow(es: seq<Event>, room: Room, qs: seq<Queued>, r: Row)
    requires CanRun(INITIAL, es)
    ensures (exists j :: 0 <= j < |Surviving(es, room, qs)| && ToRow(Surviving(es, room, qs)[j]) == r) <==>
            exists i :: 0 <= i < |qs| && ToRow(qs[i]) == r && !LostIn(INITIAL, es, room, i)
  {
    var kept := Surviving(es, room, qs);
    if j :| 0 <= j < |kept| && ToRow(kept[j]) == r {
      SurvivingMembers(es, room, qs, kept[j]);
      assert kept[j] in kept;
    }
    if i :| 0 <= i < |qs| && ToRow(qs[i]) == r && !LostIn(INITIAL, es, room, i) {
      SurvivingMembers(es, room, qs, qs[i]);
      var j :| 0 <= j < |kept| && kept[j] == qs[i];
    }
  }

  lemma HistoryHoldsSurvivors(es: seq<Event>, room: Room, qs: seq<Queued>)
    requires CanRun(INITIAL, es) && Inv(Run(INITIAL, es)) && Drained(LogOf(Run(INITIAL, es), room))
    requires qs == LogOf(Run(INITIAL, es), room).entries
    ensures forall r :: r in History(Run(INITIAL, es).table, room) <==>
              exists j :: 0 <= j < |Surviving(es, room, qs)| && ToRow(Surviving(es, room, qs)[j]) == r
  {
    forall r
      ensures r in History(Run(INITIAL, es).table, room) <==>
                exists j :: 0 <= j < |Surviving(es, room, qs)| && ToRow(Surviving(es, room, qs)[j]) == r
    {
      HistoryRow(es, room, r);
      SurvivingRow(es, room, qs, r);
    }
  }

  lemma HoldsSurvivors(es: seq<Event>, room: Room, qs: seq<Queued>)
    requires CanRun(INITIAL, es) && Inv(Run(INITIAL, es)) && Drained(LogOf(Run(INITIAL, es), room))
    requires qs == LogOf(Run(INITIAL, es), room).entries
    ensures HoldsExactly(Run(INITIAL, es).table, room, Surviving(es, room, qs))
  {
    SurvivingDiffer(es, room, qs);
    HistoryHoldsSurvivors(es, room, qs);
  }

  /** The history of a drained room after any run: the rows of what was queued and not lost, and no others. */
  lemma HistoryIsWhatSurvived(es: seq<Event>, room: Room)
    requires CanRun(INITIAL, es) && Drained(LogOf(Run(INITIAL, es), room))
    ensures Inv(Run(INITIAL, es))
    ensures HoldsExactly(Run(INITIAL, es).table, room, Surviving(es, room, QueuedIn(es, room)))
  {
    InitialInv();
    RunKeepsInv(INITIAL, es);
    StreamIsWhatWasQueued(INITIAL, es, room);
    assert LogOf(Run(INITIAL, es), room).entries == QueuedIn(es, room);
    HoldsSurvivors(es, room, QueuedIn(es, room));
  }

  /**
   * End to end, whatever failed or crashed: once a room is drained, a member who walks back reads every message broadcast
   * in it exactly once and in order, except those whose flush ended between reading and inserting them.
   */
  lemma {:induction false} EverythingNotLostIsRead(es: seq<Event>, room: Room, reactions: seq<Reaction>, users: Users, limit: nat)
    requires CanRun(INITIAL, es) && limit >= 1 && Drained(LogOf(Run(INITIAL, es), room))
    ensures ReadsExactly(Run(INITIAL, es).table, Surviving(es, room, QueuedIn(es, room)), room, reactions, users, limit)
  {
    HistoryIsWhatSurvived(es, room);
    ReadsWhatIsStored(Run(INITIAL, es).table, Surviving(es, room, QueuedIn(es, room)), room, reactions, users, limit);
  }
}
