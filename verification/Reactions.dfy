/** The reactions table: toggling, grouping, and the one batched load behind a page of history. */
module Reactions {
  import opened Common
  import opened Messages
  import opened Grouping

  datatype Reaction = Reaction(messageId: Id, userId: UserId, emoji: string)

  function NotEqual(r: Reaction): Reaction -> bool {
    (x: Reaction) => x != r
  }

  /** INSERT ... ON CONFLICT DO NOTHING; when nothing was inserted, DELETE. */
  function Toggle(table: seq<Reaction>, r: Reaction): seq<Reaction> {
    if r in table then Filter(table, NotEqual(r)) else table + [r]
  }

  function ToggleAll(table: seq<Reaction>, toggles: seq<Reaction>): seq<Reaction> {
    if toggles == [] then table
    else Toggle(ToggleAll(table, toggles[..|toggles| - 1]), toggles[|toggles| - 1])
  }

  lemma ToggleFlips(table: seq<Reaction>, t: Reaction, r: Reaction)
    requires NoDuplicates(table)
    ensures NoDuplicates(Toggle(table, t))
    ensures r in Toggle(table, t) <==> if r == t then r !in table else r in table
  {
    FilterMembers(table, NotEqual(t));
    FilterNoDuplicates(table, NotEqual(t));
  }

  /** A reaction is present exactly when it was toggled an odd number of times; the table never holds it twice. */
  lemma {:induction false} PresentIffToggledOdd(toggles: seq<Reaction>, r: Reaction)
    ensures r in ToggleAll([], toggles) <==> multiset(toggles)[r] % 2 == 1
    ensures NoDuplicates(ToggleAll([], toggles))
  {
    if toggles != [] {
      var init, last := toggles[..|toggles| - 1], toggles[|toggles| - 1];
      assert toggles == init + [last];
      assert multiset(toggles)[r] == multiset(init)[r] + if r == last then 1 else 0;
      PresentIffToggledOdd(init, r);
      ToggleFlips(ToggleAll([], init), last, r);
    }
  }

  function EmojiOf(): Reaction -> string {
    (r: Reaction) => r.emoji
  }

  function UserOf(): Reaction -> UserId {
    (r: Reaction) => r.userId
  }

  /** `groupReactions`. */
  function GroupReactions(rows: seq<Reaction>): ReactionsMap {
    GroupBy(rows, EmojiOf(), UserOf())
  }

  function OfMessage(id: Id): Reaction -> bool {
    (r: Reaction) => r.messageId == id
  }

  function OfMessages(ids: seq<Id>): Reaction -> bool {
    (r: Reaction) => r.messageId in ids
  }

  /** `getReactionsForMessage`. */
  function ReactionsForMessage(table: seq<Reaction>, id: Id): ReactionsMap {
    GroupReactions(Filter(table, OfMessage(id)))
  }

  /**
   * The map lists each user under an emoji exactly when the table has that reaction of the user to the message, in
   * the order of the rows, once for each row; and it has no emoji without a user.
   */
  ghost predicate ListsExactly(m: ReactionsMap, table: seq<Reaction>, id: Id) {
    && (forall e, u :: (e in m && u in m[e]) <==> Reaction(id, u, e) in table)
    && (forall e :: e in m ==> m[e] != [])
    && (NoDuplicates(table) ==> forall e :: e in m ==> NoDuplicates(m[e]) && InRowOrder(m[e], table, id, e))
  }

  /** Of two users listed under an emoji, the one whose row comes first is listed first. */
  ghost predicate InRowOrder(users: seq<UserId>, table: seq<Reaction>, id: Id, emoji: string) {
    forall i, j, a, b ::
      (0 <= i < j < |users| && 0 <= a < |table| && 0 <= b < |table|
       && table[a] == Reaction(id, users[i], emoji) && table[b] == Reaction(id, users[j], emoji))
      ==> a < b
  }

  /** The rows of a message with an emoji, by position. */
  function Listed(table: seq<Reaction>, id: Id, emoji: string): seq<Reaction> {
    Filter(Filter(table, OfMessage(id)), WithKey(EmojiOf(), emoji))
  }

  lemma ListedMembers(table: seq<Reaction>, id: Id, emoji: string)
    ensures forall r :: r in Listed(table, id, emoji) <==> r in table && r.messageId == id && r.emoji == emoji
    ensures NoDuplicates(table) ==> NoDuplicates(Listed(table, id, emoji))
  {
    var rows := Filter(table, OfMessage(id));
    FilterMembers(table, OfMessage(id));
    FilterMembers(rows, WithKey(EmojiOf(), emoji));
    if NoDuplicates(table) {
      FilterNoDuplicates(table, OfMessage(id));
      FilterNoDuplicates(rows, WithKey(EmojiOf(), emoji));
    }
  }

  lemma ListedInOrder(table: seq<Reaction>, id: Id, emoji: string, i: nat, j: nat, a: nat, b: nat)
    requires NoDuplicates(table) && i < j < |Listed(table, id, emoji)| && a < |table| && b < |table|
    requires table[a] == Listed(table, id, emoji)[i] && table[b] == Listed(table, id, emoji)[j]
    ensures a < b
  {
    var rows, listed := Filter(table, OfMessage(id)), Listed(table, id, emoji);
    FilterMembers(rows, WithKey(EmojiOf(), emoji));
    FilterNoDuplicates(table, OfMessage(id));
    assert listed[i] in rows && listed[j] in rows;
    var c :| 0 <= c < |rows| && rows[c] == listed[i];
    var d :| 0 <= d < |rows| && rows[d] == listed[j];
    FilterKeepsOrder(rows, WithKey(EmojiOf(), emoji), i, j, c, d);
    FilterKeepsOrder(table, OfMessage(id), c, d, a, b);
  }

  lemma UnderEmoji(table: seq<Reaction>, id: Id, emoji: string)
    ensures var m, listed := ReactionsForMessage(table, id), Listed(table, id, emoji);
            && (emoji in m <==> listed != [])
            && (emoji in m ==> |m[emoji]| == |listed| && forall i :: 0 <= i < |listed| ==> listed[i] == Reaction(id, m[emoji][i], emoji))
  {
    var rows := Filter(table, OfMessage(id));
    GroupByExact(rows, EmojiOf(), UserOf(), emoji);
    ListedMembers(table, id, emoji);
    FilterMembers(rows, WithKey(EmojiOf(), emoji));
    var listed := Listed(table, id, emoji);
    assert forall i :: 0 <= i < |listed| ==> listed[i] in listed;
    if listed != [] {
      HasElement(listed);
    }
  }

  lemma UserListedIff(table: seq<Reaction>, id: Id, emoji: string, user: UserId)
    ensures var m := ReactionsForMessage(table, id);
            (emoji in m && user in m[emoji]) <==> Reaction(id, user, emoji) in table
  {
    var m, listed := ReactionsForMessage(table, id), Listed(table, id, emoji);
    UnderEmoji(table, id, emoji);
    ListedMembers(table, id, emoji);
    if emoji in m && user in m[emoji] {
      var i :| 0 <= i < |m[emoji]| && m[emoji][i] == user;
      assert listed[i] in listed;
    }
    if Reaction(id, user, emoji) in table {
      assert Reaction(id, user, emoji) in listed;
      var i :| 0 <= i < |listed| && listed[i] == Reaction(id, user, emoji);
      assert m[emoji][i] == user;
    }
  }

  lemma UnderEmojiInOrder(table: seq<Reaction>, id: Id, emoji: string)
    requires NoDuplicates(table) && emoji in ReactionsForMessage(table, id)
    ensures var users := ReactionsForMessage(table, id)[emoji]; NoDuplicates(users) && InRowOrder(users, table, id, emoji)
  {
    var users, listed := ReactionsForMessage(table, id)[emoji], Listed(table, id, emoji);
    UnderEmoji(table, id, emoji);
    ListedMembers(table, id, emoji);
    forall i, j, a, b |
        0 <= i < j < |users| && 0 <= a < |table| && 0 <= b < |table|
        && table[a] == Reaction(id, users[i], emoji) && table[b] == Reaction(id, users[j], emoji)
      ensures a < b
    {
      ListedInOrder(table, id, emoji, i, j, a, b);
    }
  }

  /** `groupReactions` over the rows of a message says who reacted with what, and in which order. */
  lemma ReactionsAreListed(table: seq<Reaction>, id: Id)
    ensures ListsExactly(ReactionsForMessage(table, id), table, id)
  {
    var m := ReactionsForMessage(table, id);
    forall e, u
      ensures (e in m && u in m[e]) <==> Reaction(id, u, e) in table
    {
      UserListedIff(table, id, e, u);
    }
    forall e | e in m
      ensures m[e] != []
      ensures NoDuplicates(table) ==> NoDuplicates(m[e]) && InRowOrder(m[e], table, id, e)
    {
      UnderEmoji(table, id, e);
      if NoDuplicates(table) {
        UnderEmojiInOrder(table, id, e);
      }
    }
  }

  /** The single IN query of a page, filtered per message, gives each message what its own query would. */
  lemma {:induction false} BatchedLoad(table: seq<Reaction>, ids: seq<Id>, id: Id)
    requires id in ids
    ensures Filter(Filter(table, OfMessages(ids)), OfMessage(id)) == Filter(table, OfMessage(id))
  {
    if table != [] {
      BatchedLoad(table[1..], ids, id);
      if table[0].messageId in ids {
        FilterConcat([table[0]], Filter(table[1..], OfMessages(ids)), OfMessage(id));
        assert Filter([table[0]], OfMessage(id)) == if table[0].messageId == id then [table[0]] else [];
      } else {
        assert [] + Filter(table[1..], OfMessages(ids)) == Filter(table[1..], OfMessages(ids));
      }
    }
  }
}
