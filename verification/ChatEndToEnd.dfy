/** From `queueMessage` through the stream, the workers and the table back out of `getHistory`. */
module ChatEndToEnd {
  import opened Common
  import opened Messages
  import opened ChatStream
  import opened ChatDelivery
  import opened ChatHistory
  import opened Reactions

  datatype HistoryError = NotAMember

  function IdsOf(rows: seq<Row>): (ids: seq<Id>)
    ensures |ids| == |rows| && forall i :: 0 <= i < |rows| ==> ids[i] == rows[i].id
  {
    seq(|rows|, i requires 0 <= i < |rows| => rows[i].id)
  }

  /** The users table, as far as a message's sender goes. */
  type Users = map<UserId, Sender>

  function SenderOf(users: Users, row: Row): Option<Sender> {
    if row.senderId.Some? && row.senderId.value in users then Some(users[row.senderId.value]) else None
  }

  /** What a client sees of a row: who sent it, if that user still exists, what it says, and who reacted how. */
  ghost predicate ShowsRow(f: Formatted, row: Row, reactions: seq<Reaction>, users: Users) {
    && f.id == row.id && f.room == row.room && f.kind == row.kind && f.replyTo == row.replyTo
    && f.createdAt == row.createdAt && f.isDeleted == row.isDeleted
    && f.content == (if row.isDeleted then "This message was deleted." else row.content)
    && f.sender == (match row.senderId
                    case None => None
                    case Some(u) => if u in users then Some(users[u]) else None)
    && ListsExactly(f.reactions, reactions, row.id)
  }

  /** The page as `getHistory` returns it: one batched load of reactions, filtered for each message. */
  function FormatPage(rows: seq<Row>, reactions: seq<Reaction>, users: Users): (page: seq<Formatted>)
    ensures |page| == |rows|
    ensures forall i :: 0 <= i < |rows| ==> ShowsRow(page[i], rows[i], reactions, users)
    ensures forall i :: 0 <= i < |rows| ==>
              page[i] == Format(rows[i], SenderOf(users, rows[i]), ReactionsForMessage(reactions, rows[i].id))
  {
    var loaded := Filter(reactions, OfMessages(IdsOf(rows)));
    assert forall i :: 0 <= i < |rows| ==>
             && Filter(loaded, OfMessage(rows[i].id)) == Filter(reactions, OfMessage(rows[i].id))
             && ListsExactly(ReactionsForMessage(reactions, rows[i].id), reactions, rows[i].id) by {
      forall i | 0 <= i < |rows|
        ensures Filter(loaded, OfMessage(rows[i].id)) == Filter(reactions, OfMessage(rows[i].id))
        ensures ListsExactly(ReactionsForMessage(reactions, rows[i].id), reactions, rows[i].id)
      {
        assert IdsOf(rows)[i] == rows[i].id;
        BatchedLoad(reactions, IdsOf(rows), rows[i].id);
        ReactionsAreListed(reactions, rows[i].id);
      }
    }
    seq(|rows|, i requires 0 <= i < |rows| =>
      Format(rows[i], SenderOf(users, rows[i]), GroupReactions(Filter(loaded, OfMessage(rows[i].id)))))
  }

  function GetHistory(table: seq<Row>, reactions: seq<Reaction>, users: Users, hasAccess: bool, room: Room,
                      before: Option<Id>, limit: nat): Result<seq<Formatted>, HistoryError>
  {
    if !hasAccess then Err(NotAMember)
    else Ok(FormatPage(Page(table, room, before, limit), reactions, users))
  }

  /** A member reads back from `before` until a page comes back empty, putting each page in front. */
  function ReadBack(table: seq<Row>, reactions: seq<Reaction>, users: Users, room: Room, before: Option<Id>, limit: nat): seq<Formatted>
    requires UniqueIds(table) && limit >= 1
    decreases |Below(table, room, CursorOf(table, before))|
  {
    var page := GetHistory(table, reactions, users, true, room, before, limit).value;
    if page == [] then []
    else
      StepBack(table, room, before, limit);
      ReadBack(table, reactions, users, room, Some(page[0].id), limit) + page
  }

  lemma FormatConcat(a: seq<Row>, b: seq<Row>, reactions: seq<Reaction>, users: Users)
    ensures FormatPage(a + b, reactions, users) == FormatPage(a, reactions, users) + FormatPage(b, reactions, users)
  {
  }

  lemma {:induction false} ReadBackIsHistory(table: seq<Row>, reactions: seq<Reaction>, users: Users, room: Room,
                                             before: Option<Id>, limit: nat)
    requires UniqueIds(table) && limit >= 1
    ensures ReadBack(table, reactions, users, room, before, limit)
            == FormatPage(Below(table, room, CursorOf(table, before)), reactions, users)
    decreases |Below(table, room, CursorOf(table, before))|
  {
    var rows := Page(table, room, before, limit);
    var page := FormatPage(rows, reactions, users);
    PageIsSuffix(table, room, before, limit);
    if page != [] {
      StepBack(table, room, before, limit);
      ReadBackIsHistory(table, reactions, users, room, Some(page[0].id), limit);
      FormatConcat(Below(table, room, Some(rows[0])), rows, reactions, users);
    }
  }

  // ---- What was broadcast --------------------------------------------------------------------------------

  /** The messages queued in a room during a run, in stream order. */
  function QueuedIn(es: seq<Event>, room: Room): seq<Queued> {
    if es == [] then []
    else (if es[0].room == room && es[0].op.Enqueue? then [es[0].op.q] else []) + QueuedIn(es[1..], room)
  }

  lemma StepQueues(s: System, e: Event, room: Room)
    requires Enabled(s, e)
    ensures LogOf(Next(s, e), room).entries ==
            LogOf(s, room).entries + if e.room == room && e.op.Enqueue? then [e.op.q] else []
  {
    if !e.op.Enqueue? {
      StepKeepsEntries(LogOf(s, e.room), e.op);
    }
  }

  lemma {:induction false} StreamIsWhatWasQueued(s: System, es: seq<Event>, room: Room)
    requires CanRun(s, es)
    ensures LogOf(Run(s, es), room).entries == LogOf(s, room).entries + QueuedIn(es, room)
    decreases es
  {
    if es != [] {
      var before, rest := LogOf(s, room).entries, QueuedIn(es[1..], room);
      var first := if es[0].room == room && es[0].op.Enqueue? then [es[0].op.q] else [];
      StepQueues(s, es[0], room);
      StreamIsWhatWasQueued(Next(s, es[0]), es[1..], room);
      assert LogOf(Run(s, es), room).entries == (before + first) + rest;
      Regroup(before, first, rest);
      assert QueuedIn(es, room) == first + rest;
    }
  }

  lemma Regroup<T>(a: seq<T>, b: seq<T>, c: seq<T>)
    ensures (a + b) + c == a + (b + c)
  {
  }

  /** Some of these messages has the row's id, and each that has it is recorded by the row, sender included. */
  ghost predicate RecordsOne(r: Row, qs: seq<Queued>) {
    && (exists i :: 0 <= i < |qs| && qs[i].id == r.id)
    && forall i :: 0 <= i < |qs| && qs[i].id == r.id ==> Records(r, qs[i])
  }

  /**
   * After any run, whatever failed or crashed: each row of a room records a message that was queued in it, with its
   * sender, and there is no other message of the room under that id.
   */
  lemma {:induction false} RowsRecordQueued(es: seq<Event>, room: Room, r: Row)
    requires CanRun(INITIAL, es) && r in Run(INITIAL, es).table && r.room == room
    ensures RecordsOne(r, QueuedIn(es, room))
  {
    InitialInv();
    RunKeepsInv(INITIAL, es);
    StreamIsWhatWasQueued(INITIAL, es, room);
    RowRecordsEntry(Run(INITIAL, es), room, r, QueuedIn(es, room));
  }

  lemma RowRecordsEntry(s: System, room: Room, r: Row, qs: seq<Queued>)
    requires Inv(s) && r in s.table && r.room == room && qs == LogOf(s, room).entries
    ensures RecordsOne(r, qs)
  {
    var i := RowEntry(s, r);
    assert qs[i].id == r.id;
    forall j | 0 <= j < |qs| && qs[j].id == r.id
      ensures Records(r, qs[j])
    {
      RowsAreFaithful(s, r, room, j);
    }
  }

  function Bodies(page: seq<Formatted>): (r: seq<Formatted>)
    ensures |r| == |page| && forall i :: 0 <= i < |page| ==> r[i] == Body(page[i])
  {
    seq(|page|, i requires 0 <= i < |page| => Body(page[i]))
  }

  function Broadcasts(qs: seq<Queued>): (r: seq<Formatted>)
    ensures |r| == |qs| && forall i :: 0 <= i < |qs| ==> r[i] == Broadcast(qs[i])
  {
    seq(|qs|, i requires 0 <= i < |qs| => Broadcast(qs[i]))
  }

  /** Strictly increasing in (createdAt, id). */
  ghost predicate InOrder(page: seq<Formatted>) {
    forall i, j :: 0 <= i < j < |page| ==>
      page[i].createdAt < page[j].createdAt || (page[i].createdAt == page[j].createdAt && page[i].id < page[j].id)
  }

  lemma HistoryIsStream(s: System, room: Room, r: Row)
    requires Inv(s)
    requires forall i :: 0 <= i < |LogOf(s, room).entries| ==> ToRow(LogOf(s, room).entries[i]) in s.table
    ensures r in History(s.table, room) <==>
            exists i :: 0 <= i < |LogOf(s, room).entries| && ToRow(LogOf(s, room).entries[i]) == r
  {
    BelowSorted(s.table, room, None);
    var entries := LogOf(s, room).entries;
    if r in s.table && r.room == room {
      var i :| 0 <= i < |s.rooms[room].entries| && ToRow(s.rooms[room].entries[i]) == r;
      assert ToRow(entries[i]) == r && !r.isDeleted;
    }
    if i :| 0 <= i < |entries| && ToRow(entries[i]) == r {
      assert entries[i].room == room;
    }
  }

  lemma InOrderWhenAscending(rows: seq<Row>, reactions: seq<Reaction>, users: Users)
    requires Ascending(rows)
    ensures InOrder(FormatPage(rows, reactions, users))
  {
    var got := FormatPage(rows, reactions, users);
    forall i, j | 0 <= i < j < |got|
      ensures got[i].createdAt < got[j].createdAt || (got[i].createdAt == got[j].createdAt && got[i].id < got[j].id)
    {
      assert Precedes(rows[i], rows[j]);
    }
  }

  /** The room's history is the rows of `qs`, whose ids all differ. */
  ghost predicate HoldsExactly(table: seq<Row>, room: Room, qs: seq<Queued>) {
    && (forall i, j :: 0 <= i < j < |qs| ==> qs[i].id != qs[j].id)
    && (forall r :: r in History(table, room) <==> exists i :: 0 <= i < |qs| && ToRow(qs[i]) == r)
  }

  lemma CleanRunStoresAll(es: seq<Event>, room: Room)
    requires CanRun(INITIAL, es) && Clean(es) && Drained(LogOf(Run(INITIAL, es), room))
    ensures var s := Run(INITIAL, es);
            forall i :: 0 <= i < |LogOf(s, room).entries| ==> ToRow(LogOf(s, room).entries[i]) in s.table
  {
    var s := Run(INITIAL, es);
    forall i | 0 <= i < |LogOf(s, room).entries|
      ensures ToRow(LogOf(s, room).entries[i]) in s.table
    {
      CleanRunDelivers(es, room, i);
    }
  }

  lemma HoldsWhatIsStored(s: System, room: Room)
    requires Inv(s)
    requires forall i :: 0 <= i < |LogOf(s, room).entries| ==> ToRow(LogOf(s, room).entries[i]) in s.table
    ensures HoldsExactly(s.table, room, LogOf(s, room).entries)
  {
    forall r
      ensures r in History(s.table, room) <==>
                exists i :: 0 <= i < |LogOf(s, room).entries| && ToRow(LogOf(s, room).entries[i]) == r
    {
      HistoryIsStream(s, room, r);
    }
  }

  /** The history of a drained room after a clean run: the rows of what was queued, and no others. */
  lemma HistoryIsWhatWasQueued(es: seq<Event>, room: Room)
    requires CanRun(INITIAL, es) && Clean(es) && Drained(LogOf(Run(INITIAL, es), room))
    ensures Inv(Run(INITIAL, es)) && HoldsExactly(Run(INITIAL, es).table, room, QueuedIn(es, room))
  {
    InitialInv();
    RunKeepsInv(INITIAL, es);
    StreamIsWhatWasQueued(INITIAL, es, room);
    assert LogOf(Run(INITIAL, es), room).entries == QueuedIn(es, room);
    CleanRunStoresAll(es, room);
    HoldsWhatIsStored(Run(INITIAL, es), room);
  }

  lemma DeliveredBodies(rows: seq<Row>, reactions: seq<Reaction>, users: Users, qs: seq<Queued>)
    requires Ascending(rows)
    requires forall i, j :: 0 <= i < j < |qs| ==> qs[i].id != qs[j].id
    requires forall r :: r in rows <==> exists i :: 0 <= i < |qs| && ToRow(qs[i]) == r
    ensures multiset(Bodies(FormatPage(rows, reactions, users))) == multiset(Bodies(Broadcasts(qs)))
  {
    var got, sent := Bodies(FormatPage(rows, reactions, users)), Bodies(Broadcasts(qs));
    forall i, j | 0 <= i < j < |got|
      ensures got[i] != got[j]
    {
      assert Precedes(rows[i], rows[j]);
    }
    assert forall i, j :: 0 <= i < j < |sent| ==> sent[i].id != sent[j].id;
    forall b
      ensures b in got <==> b in sent
    {
      SameBodies(rows, reactions, users, qs, b);
    }
    SameElementsSameMultiset(got, sent);
  }

  lemma SameBodies(rows: seq<Row>, reactions: seq<Reaction>, users: Users, qs: seq<Queued>, b: Formatted)
    requires forall r :: r in rows <==> exists i :: 0 <= i < |qs| && ToRow(qs[i]) == r
    ensures b in Bodies(FormatPage(rows, reactions, users)) <==> b in Bodies(Broadcasts(qs))
  {
    var got, sent := Bodies(FormatPage(rows, reactions, users)), Bodies(Broadcasts(qs));
    if b in got {
      var i :| 0 <= i < |got| && got[i] == b;
      assert rows[i] in rows;
      var j :| 0 <= j < |qs| && ToRow(qs[j]) == rows[i];
      assert sent[j] == b;
    }
    if b in sent {
      var j :| 0 <= j < |sent| && sent[j] == b;
      assert ToRow(qs[j]) in rows;
      var i :| 0 <= i < |rows| && rows[i] == ToRow(qs[j]);
      assert got[i] == b;
    }
  }

  /**
   * What a client sees of a queued message: what was sent, where and when, the user who queued it (nobody if that
   * user is gone), and the reactions to it.
   */
  ghost predicate Shows(f: Formatted, q: Queued, reactions: seq<Reaction>, users: Users) {
    && f.id == q.id && f.room == q.room && f.content == q.content && f.kind == Text && f.replyTo == q.replyTo
    && f.createdAt == q.createdAt && !f.isDeleted
    && f.sender == (if q.senderId in users then Some(users[q.senderId]) else None)
    && ListsExactly(f.reactions, reactions, q.id)
  }

  ghost predicate ShowsOneOf(f: Formatted, qs: seq<Queued>, reactions: seq<Reaction>, users: Users) {
    exists j :: 0 <= j < |qs| && Shows(f, qs[j], reactions, users)
  }

  ghost predicate IsShown(page: seq<Formatted>, q: Queued, reactions: seq<Reaction>, users: Users) {
    exists i :: 0 <= i < |page| && Shows(page[i], q, reactions, users)
  }

  /** Every message shown is one of `qs`, and each of `qs` is shown. */
  ghost predicate ShowsAll(page: seq<Formatted>, qs: seq<Queued>, reactions: seq<Reaction>, users: Users) {
    && |page| == |qs|
    && (forall f :: f in page ==> ShowsOneOf(f, qs, reactions, users))
    && (forall q :: q in qs ==> IsShown(page, q, reactions, users))
  }

  lemma RowShows(row: Row, q: Queued, f: Formatted, reactions: seq<Reaction>, users: Users)
    requires row == ToRow(q) && ShowsRow(f, row, reactions, users)
    ensures Shows(f, q, reactions, users)
  {
  }

  lemma DeliveredShown(rows: seq<Row>, reactions: seq<Reaction>, users: Users, qs: seq<Queued>)
    requires |FormatPage(rows, reactions, users)| == |qs|
    requires forall r :: r in rows <==> exists i :: 0 <= i < |qs| && ToRow(qs[i]) == r
    ensures ShowsAll(FormatPage(rows, reactions, users), qs, reactions, users)
  {
    var page := FormatPage(rows, reactions, users);
    forall f | f in page
      ensures ShowsOneOf(f, qs, reactions, users)
    {
      var i :| 0 <= i < |page| && page[i] == f;
      assert rows[i] in rows;
      var j :| 0 <= j < |qs| && ToRow(qs[j]) == rows[i];
      RowShows(rows[i], qs[j], page[i], reactions, users);
    }
    forall q | q in qs
      ensures IsShown(page, q, reactions, users)
    {
      var j :| 0 <= j < |qs| && qs[j] == q;
      assert ToRow(qs[j]) in rows;
      var i :| 0 <= i < |rows| && rows[i] == ToRow(qs[j]);
      RowShows(rows[i], qs[j], page[i], reactions, users);
    }
  }

  /**
   * Walking back from the newest page reads what was broadcast of `qs`, each message once, in order, each with the
   * user who queued it and with its reactions.
   */
  ghost predicate ReadsExactly(table: seq<Row>, qs: seq<Queued>, room: Room, reactions: seq<Reaction>, users: Users, limit: nat)
    requires limit >= 1
  {
    && UniqueIds(table)
    && var got := ReadBack(table, reactions, users, room, None, limit);
       && InOrder(got) && multiset(Bodies(got)) == multiset(Bodies(Broadcasts(qs)))
       && ShowsAll(got, qs, reactions, users)
  }

  /** Walking back over a table whose history of the room is the rows of `qs`. */
  lemma ReadsWhatIsStored(table: seq<Row>, qs: seq<Queued>, room: Room, reactions: seq<Reaction>, users: Users, limit: nat)
    requires UniqueIds(table) && limit >= 1
    requires HoldsExactly(table, room, qs)
    ensures ReadsExactly(table, qs, room, reactions, users, limit)
  {
    ReadBackIsHistory(table, reactions, users, room, None, limit);
    BelowSorted(table, room, None);
    DeliveredBodies(History(table, room), reactions, users, qs);
    assert |Bodies(FormatPage(History(table, room), reactions, users))| == |multiset(Bodies(Broadcasts(qs)))|;
    DeliveredShown(History(table, room), reactions, users, qs);
    InOrderWhenAscending(History(table, room), reactions, users);
  }

  /**
   * End to end: after a clean run in which the room's stream has been drained, a member who walks back from
   * the newest page reads every message broadcast in the room exactly once, in (createdAt, id) order, with
   * the broadcast id, room, content, kind, reply and time, the user who sent it, and the reactions to it. It does not matter when the consumer group was
   * created, nor which workers flushed what.
   */
  lemma {:induction false} EverythingBroadcastIsRead(es: seq<Event>, room: Room, reactions: seq<Reaction>, users: Users, limit: nat)
    requires CanRun(INITIAL, es) && Clean(es) && limit >= 1
    requires Drained(LogOf(Run(INITIAL, es), room))
    ensures ReadsExactly(Run(INITIAL, es).table, QueuedIn(es, room), room, reactions, users, limit)
  {
    HistoryIsWhatWasQueued(es, room);
    ReadsWhatIsStored(Run(INITIAL, es).table, QueuedIn(es, room), room, reactions, users, limit);
  }

  // ---- Replies -------------------------------------------------------------------------------------------

  const REPLY_LOOKBACK := 200
  const SNAPSHOT_LENGTH := 200

  function Prefix(s: string): string {
    s[..Min(SNAPSHOT_LENGTH, |s|)]
  }

  /** XREVRANGE + - COUNT: search the newest `count` entries, newest first. */
  function SearchBack(entries: seq<Queued>, id: Id, count: nat): Option<Queued> {
    if entries == [] || count == 0 then None
    else if entries[|entries| - 1].id == id then Some(entries[|entries| - 1])
    else SearchBack(entries[..|entries| - 1], id, count - 1)
  }

  function NameOf(users: Users, row: Row): string {
    var sender := SenderOf(users, row);
    if sender.Some? then sender.value.name else "Unknown"
  }

  /** `resolveReplySnapshot`; `streamUp` is false when the stream lookup throws. */
  function ResolveReply(entries: seq<Queued>, table: seq<Row>, users: Users, id: Id, streamUp: bool): Option<Reply> {
    var q := if streamUp then SearchBack(entries, id, REPLY_LOOKBACK) else None;
    if q.Some? then Some(Reply(q.value.id, Prefix(q.value.content), q.value.senderName))
    else
      var parent := Find(table, id);
      if parent.Some? && !parent.value.isDeleted
      then Some(Reply(id, Prefix(parent.value.content), NameOf(users, parent.value)))
      else None
  }

  lemma {:induction false} SearchBackFinds(entries: seq<Queued>, id: Id, count: nat)
    ensures SearchBack(entries, id, count).Some? <==>
            exists i :: |entries| - count <= i < |entries| && 0 <= i && entries[i].id == id
    ensures SearchBack(entries, id, count).Some? ==>
            SearchBack(entries, id, count).value in entries && SearchBack(entries, id, count).value.id == id
  {
    if entries != [] && count > 0 {
      var init := entries[..|entries| - 1];
      SearchBackFinds(init, id, count - 1);
      if exists i :: |init| - (count - 1) <= i < |init| && 0 <= i && init[i].id == id {
        var i :| |init| - (count - 1) <= i < |init| && 0 <= i && init[i].id == id;
        assert entries[i].id == id;
      }
      if entries[|entries| - 1].id != id && exists i :: |entries| - count <= i < |entries| && 0 <= i && entries[i].id == id {
        var i :| |entries| - count <= i < |entries| && 0 <= i && entries[i].id == id;
        assert init[i].id == id;
      }
      if SearchBack(init, id, count - 1).Some? {
        assert SearchBack(init, id, count - 1).value in init;
      }
    }
  }

  /** Among the newest 200 entries of the stream. */
  ghost predicate IsRecent(entries: seq<Queued>, id: Id) {
    exists i :: |entries| - 200 <= i < |entries| && 0 <= i && entries[i].id == id
  }

  /** The text is cut after 200 characters. */
  ghost predicate CutsAt200(cut: string, text: string) {
    cut <= text && |cut| == if |text| < 200 then |text| else 200
  }

  ghost function NameIn(users: Users, id: UserId): string {
    if id in users then users[id].name else "Unknown"
  }

  /** The snapshot of a queued message: a recent one gives the name it was sent under, an older one that of the user row. */
  ghost predicate Quotes(reply: Reply, q: Queued, users: Users, recent: bool) {
    && reply.id == q.id && CutsAt200(reply.content, q.content)
    && reply.senderName == if recent then q.senderName else NameIn(users, q.senderId)
  }

  /** The reply quotes a message that was queued under that id. */
  ghost predicate QuotesQueued(s: System, users: Users, reply: Reply, id: Id, recent: bool) {
    exists k, i: nat :: HasEntry(s, k, i) && s.rooms[k].entries[i].id == id && Quotes(reply, s.rooms[k].entries[i], users, recent)
  }

  lemma RecentQuotesQueued(s: System, room: Room, users: Users, id: Id)
    requires SearchBack(LogOf(s, room).entries, id, REPLY_LOOKBACK).Some?
    ensures QuotesQueued(s, users, ResolveReply(LogOf(s, room).entries, s.table, users, id, true).value, id, true)
  {
    var entries := LogOf(s, room).entries;
    SearchBackFinds(entries, id, REPLY_LOOKBACK);
    var i :| 0 <= i < |entries| && entries[i] == SearchBack(entries, id, REPLY_LOOKBACK).value;
    assert HasEntry(s, room, i) && s.rooms[room].entries[i].id == id;
  }

  lemma StoredQuotesQueued(s: System, users: Users, id: Id)
    requires Inv(s) && Find(s.table, id).Some?
    ensures var parent := Find(s.table, id).value;
            !parent.isDeleted && QuotesQueued(s, users, Reply(id, Prefix(parent.content), NameOf(users, parent)), id, false)
  {
    FindFinds(s.table, id);
    var parent := Find(s.table, id).value;
    var i := RowEntry(s, parent);
    assert HasEntry(s, parent.room, i) && s.rooms[parent.room].entries[i].id == id;
  }

  lemma ReplyQuotesQueued(s: System, room: Room, users: Users, id: Id, streamUp: bool)
    requires Inv(s)
    ensures var reply := ResolveReply(LogOf(s, room).entries, s.table, users, id, streamUp);
            reply.Some? ==> QuotesQueued(s, users, reply.value, id, streamUp && IsRecent(LogOf(s, room).entries, id))
  {
    var entries := LogOf(s, room).entries;
    SearchBackFinds(entries, id, REPLY_LOOKBACK);
    var recent := IsRecent(entries, id);
    assert recent <==> SearchBack(entries, id, REPLY_LOOKBACK).Some?;
    if streamUp && recent {
      RecentQuotesQueued(s, room, users, id);
    } else if Find(s.table, id).Some? {
      StoredQuotesQueued(s, users, id);
    }
  }

  lemma RowEntry(s: System, r: Row) returns (i: nat)
    requires Inv(s) && r in s.table
    ensures HasEntry(s, r.room, i) && ToRow(s.rooms[r.room].entries[i]) == r && !r.isDeleted
  {
    i :| 0 <= i < |s.rooms[r.room].entries| && ToRow(s.rooms[r.room].entries[i]) == r;
  }

  /**
   * In every reachable state, a reply resolves exactly when its target is among the newest 200 entries of the
   * room's stream, and the stream answers, or in the table; and the snapshot is then that of the message queued
   * under that id, flushed or not, with the name it was sent under if it was found in the stream.
   */
  lemma ReplyResolvesIff(es: seq<Event>, room: Room, users: Users, id: Id, streamUp: bool)
    requires CanRun(INITIAL, es)
    ensures var s := Run(INITIAL, es);
            var recent := streamUp && IsRecent(LogOf(s, room).entries, id);
            var reply := ResolveReply(LogOf(s, room).entries, s.table, users, id, streamUp);
            && (reply.Some? <==> recent || HasId(s.table, id))
            && (reply.Some? ==> QuotesQueued(s, users, reply.value, id, recent))
  {
    var s := Run(INITIAL, es);
    InitialInv();
    RunKeepsInv(INITIAL, es);
    ReplyQuotesQueued(s, room, users, id, streamUp);
    SearchBackFinds(LogOf(s, room).entries, id, REPLY_LOOKBACK);
    FindFinds(s.table, id);
    if Find(s.table, id).Some? {
      var i := RowEntry(s, Find(s.table, id).value);
    }
  }

  /**
   * Over any stream and table with one row for each id: a reply resolves exactly when the stream answers and has its
   * target among the newest 200 entries, or the table has it and it is not deleted; the snapshot then cuts the content
   * of that message, and of a row it names the sender, or says "Unknown" when the sender is gone.
   */
  lemma ReplyFoundIff(entries: seq<Queued>, table: seq<Row>, users: Users, id: Id, streamUp: bool)
    requires UniqueIds(table)
    ensures var reply, recent := ResolveReply(entries, table, users, id, streamUp), streamUp && IsRecent(entries, id);
            && (reply.Some? <==> recent || exists r :: r in table && r.id == id && !r.isDeleted)
            && (reply.Some? ==> reply.value.id == id)
            && (reply.Some? && recent ==> exists q :: q in entries && q.id == id && Quotes(reply.value, q, users, true))
            && (reply.Some? && !recent ==> exists r :: r in table && r.id == id && !r.isDeleted && QuotesRow(reply.value, r, users))
  {
    SearchBackFinds(entries, id, REPLY_LOOKBACK);
    FindFinds(table, id);
    if r :| r in table && r.id == id {
      FindUnique(table, r);
    }
  }

  ghost predicate QuotesRow(reply: Reply, r: Row, users: Users) {
    && CutsAt200(reply.content, r.content)
    && reply.senderName == if r.senderId.Some? then NameIn(users, r.senderId.value) else "Unknown"
  }
}
