/**
 * The values that chat moves around: the queued message (the JSON held by a stream entry), the table row,
 * and the formatted message sent to clients. A uuid is read as the number that orders it in Postgres,
 * a timestamp as milliseconds.
 */
module Messages {
  import opened Common

  type Id = nat
  type UserId = nat

  datatype RoomKind = TripRoom | CommunityRoom

  /** A room, and so also the key of its stream. */
  datatype Room = Room(kind: RoomKind, id: nat)

  datatype Reply = Reply(id: Id, content: string, senderName: string)

  datatype Queued = Queued(id: Id, room: Room, senderId: UserId, senderName: string, senderAvatar: Option<string>,
                           content: string, replyTo: Option<Reply>, createdAt: int)

  datatype MessageKind = Text | SystemNotice

  datatype Row = Row(id: Id, room: Room, senderId: Option<UserId>, content: string, kind: MessageKind,
                     replyTo: Option<Reply>, isPinned: bool, isDeleted: bool, createdAt: int,
                     deletedAt: Option<int>)

  datatype Sender = Sender(id: UserId, name: string, avatar: Option<string>)

  type ReactionsMap = map<string, seq<UserId>>

  datatype Formatted = Formatted(id: Id, room: Room, sender: Option<Sender>, content: string, kind: MessageKind,
                                 replyTo: Option<Reply>, reactions: ReactionsMap, createdAt: int, isDeleted: bool)

  /** The row that `flushStream` builds from a stream entry. */
  function ToRow(q: Queued): Row {
    Row(q.id, q.room, Some(q.senderId), q.content, Text, q.replyTo, false, false, q.createdAt, None)
  }

  /** Field by field, what a row must say about the message that was queued: who sent what, where and when. */
  ghost predicate Records(r: Row, q: Queued) {
    && r.id == q.id && r.room == q.room && r.senderId == Some(q.senderId) && r.content == q.content
    && r.kind == Text && r.replyTo == q.replyTo && r.createdAt == q.createdAt
    && !r.isPinned && !r.isDeleted && r.deletedAt == None
  }

  /** What `queueMessage` returns, and the gateway broadcasts, at once. */
  function Broadcast(q: Queued): Formatted {
    Formatted(q.id, q.room, Some(Sender(q.senderId, q.senderName, q.senderAvatar)), q.content, Text,
              q.replyTo, map[], q.createdAt, false)
  }

  /** `formatMessage`, with the reactions already grouped. */
  function Format(row: Row, sender: Option<Sender>, reactions: ReactionsMap): Formatted {
    Formatted(row.id, row.room, sender, if row.isDeleted then "This message was deleted." else row.content,
              row.kind, row.replyTo, reactions, row.createdAt, row.isDeleted)
  }

  /** A formatted message without the parts that come from the user row or change later. */
  function Body(f: Formatted): Formatted {
    f.(sender := None, reactions := map[])
  }

  /** The order of `ORDER BY createdAt, id`, ascending. */
  predicate Precedes(a: Row, b: Row) {
    a.createdAt < b.createdAt || (a.createdAt == b.createdAt && a.id < b.id)
  }

  predicate HasId(table: seq<Row>, id: Id) {
    exists i :: 0 <= i < |table| && table[i].id == id
  }

  ghost predicate UniqueIds(table: seq<Row>) {
    forall i, j :: 0 <= i < j < |table| ==> table[i].id != table[j].id
  }

  /** INSERT ... ON CONFLICT DO NOTHING, row by row. */
  function InsertIgnore(table: seq<Row>, rows: seq<Row>): seq<Row>
    decreases rows
  {
    if rows == [] then table
    else InsertIgnore(if HasId(table, rows[0].id) then table else table + [rows[0]], rows[1..])
  }

  lemma {:induction false} InsertIgnoreKeeps(table: seq<Row>, rows: seq<Row>)
    ensures table <= InsertIgnore(table, rows)
    ensures UniqueIds(table) ==> UniqueIds(InsertIgnore(table, rows))
    ensures forall r :: r in InsertIgnore(table, rows) ==> r in table || r in rows
    ensures forall r :: r in rows ==> HasId(InsertIgnore(table, rows), r.id)
    decreases rows
  {
    if rows != [] {
      var t := if HasId(table, rows[0].id) then table else table + [rows[0]];
      InsertIgnoreKeeps(t, rows[1..]);
      assert HasId(t, rows[0].id) by {
        if !HasId(table, rows[0].id) {
          assert t[|table|].id == rows[0].id;
        }
      }
      var k :| 0 <= k < |t| && t[k].id == rows[0].id;
      assert InsertIgnore(table, rows)[k].id == rows[0].id;
      assert rows == [rows[0]] + rows[1..];
    }
  }

  /** When no row of the batch clashes with a different row of the table, every row of the batch is then present. */
  lemma InsertIgnoreHasAll(table: seq<Row>, rows: seq<Row>)
    requires forall r, s :: r in table + rows && s in table + rows && r.id == s.id ==> r == s
    ensures forall r :: r in rows ==> r in InsertIgnore(table, rows)
  {
    InsertIgnoreKeeps(table, rows);
    forall r | r in rows
      ensures r in InsertIgnore(table, rows)
    {
      var out := InsertIgnore(table, rows);
      assert HasId(out, r.id);
      var k :| 0 <= k < |out| && out[k].id == r.id;
      assert out[k] in out;
      assert out[k] in table + rows && r in table + rows;
    }
  }

  function Find(table: seq<Row>, id: Id): (r: Option<Row>) {
    if table == [] then None
    else if table[0].id == id then Some(table[0])
    else Find(table[1..], id)
  }

  lemma {:induction false} FindFinds(table: seq<Row>, id: Id)
    ensures Find(table, id).Some? ==> Find(table, id).value in table && Find(table, id).value.id == id
    ensures Find(table, id).Some? <==> HasId(table, id)
  {
    if table != [] {
      FindFinds(table[1..], id);
      if HasId(table, id) && table[0].id != id {
        var k :| 0 <= k < |table| && table[k].id == id;
        assert table[1..][k - 1].id == id;
      }
      if HasId(table[1..], id) {
        var k :| 0 <= k < |table[1..]| && table[1..][k].id == id;
        assert table[k + 1].id == id;
      }
    }
  }

  lemma FindUnique(table: seq<Row>, row: Row)
    requires UniqueIds(table) && row in table
    ensures Find(table, row.id) == Some(row)
  {
    FindFinds(table, row.id);
    var k :| 0 <= k < |table| && table[k] == row;
    assert HasId(table, row.id);
    var j :| 0 <= j < |table| && table[j] == Find(table, row.id).value;
    assert k == j;
  }
}
