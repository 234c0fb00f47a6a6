/**
 * The sliding-window limit on reactions: a sorted set per user that is pruned on every call and expires as a
 * whole. A call prunes and counts in one pipeline and adds its entry in another, and other calls of the user can
 * come between. The set is compared with the full logs, which are never pruned. Times are in milliseconds.
 */
module RateLimit {
  import opened Common
  import opened Messages
  import opened Windows

  const RL_REACT_MAX := 60
  const RL_WINDOW_MS := 60000
  const RL_KEY_TTL_MS := 70000

  type Member = nat

  /** The sorted set: a score for each member, and the expiry of the key. */
  datatype Scores = Scores(scores: map<Member, nat>, expires: int)

  /** The instant a call reads the clock, and the name of its entry. */
  datatype Call = Call(at: nat, member: Member)

  function LiveScores(key: Option<Scores>, now: int): map<Member, nat> {
    if key.Some? && now < key.value.expires then key.value.scores else map[]
  }

  /** ZREMRANGEBYSCORE key 0 upTo. */
  function Pruned(scores: map<Member, nat>, upTo: int): map<Member, nat> {
    map m | m in scores && !(0 <= scores[m] <= upTo) :: scores[m]
  }

  function Kept(key: Option<Scores>, now: int): map<Member, nat> {
    Pruned(LiveScores(key, now), now - RL_WINDOW_MS)
  }

  /** The key after the first pipeline. */
  function AfterPrune(key: Option<Scores>, now: int): Option<Scores> {
    if key.None? then None else Some(Scores(Kept(key, now), key.value.expires))
  }

  /** ZADD with the time read at the start, then EXPIRE from now. */
  function AfterAdd(key: Option<Scores>, call: Call, now: int): Option<Scores> {
    Some(Scores(LiveScores(key, now)[call.member := call.at], now + RL_KEY_TTL_MS))
  }

  type CallId = nat

  datatype Event = Count(id: CallId, at: nat, member: Member) | Add(id: CallId, at: nat)

  /** The key, the calls between count and add, and two logs: who was granted, in that order, and who has added. */
  datatype State = State(clock: nat, key: Option<Scores>, calls: map<CallId, Call>, grants: seq<Call>, added: seq<Call>)

  const START := State(0, None, map[], [], [])

  ghost predicate Enabled(s: State, e: Event) {
    && s.clock <= e.at
    && match e
       case Count(id, _, member) => id !in s.calls && NewMember(s.grants, member)
       case Add(id, _) => id in s.calls
  }

  /** Generated names differ. */
  ghost predicate NewMember(grants: seq<Call>, member: Member) {
    forall i :: 0 <= i < |grants| ==> grants[i].member != member
  }

  /** Fewer than 60 entries were counted. */
  predicate Grants(key: Option<Scores>, now: int) {
    |Kept(key, now)| < RL_REACT_MAX
  }

  function Next(s: State, e: Event): State
    requires e.Add? ==> e.id in s.calls
  {
    match e
    case Count(id, at, member) =>
      var call := Call(at, member);
      if !Grants(s.key, at) then s.(clock := at, key := AfterPrune(s.key, at))
      else s.(clock := at, key := AfterPrune(s.key, at), calls := s.calls[id := call], grants := s.grants + [call])
    case Add(id, at) =>
      s.(clock := at, key := AfterAdd(s.key, s.calls[id], at), calls := s.calls - {id}, added := s.added + [s.calls[id]])
  }

  ghost predicate CanRun(es: seq<Event>)
    decreases |es|, 0
  {
    es == [] || (CanRun(es[..|es| - 1]) && Enabled(Run(es[..|es| - 1]), es[|es| - 1]))
  }

  ghost function Run(es: seq<Event>): State
    requires CanRun(es)
    decreases |es|, 1
  {
    if es == [] then START else Next(Run(es[..|es| - 1]), es[|es| - 1])
  }

  /** At no point are more than `k` calls between count and add. With `k` 1, calls do not overlap. */
  ghost predicate AtMost(es: seq<Event>, k: nat)
    requires CanRun(es)
    decreases |es|
  {
    |Run(es).calls| <= k && (es != [] ==> AtMost(es[..|es| - 1], k))
  }

  lemma Extend(es: seq<Event>, s: State, e: Event, t: State, k: nat)
    requires CanRun(es) && Run(es) == s && AtMost(es, k)
    requires Enabled(s, e) && Next(s, e) == t && |t.calls| <= k
    ensures CanRun(es + [e]) && Run(es + [e]) == t && AtMost(es + [e], k)
  {
    assert (es + [e])[..|es|] == es;
  }

  // ---- The set and the logs ------------------------------------------------------------------------------

  function Times(calls: seq<Call>): (ts: seq<int>)
    ensures |ts| == |calls| && forall i :: 0 <= i < |calls| ==> ts[i] == calls[i].at
  {
    seq(|calls|, i requires 0 <= i < |calls| => calls[i].at)
  }

  ghost predicate MembersDiffer(calls: seq<Call>) {
    forall i, j :: 0 <= i < j < |calls| ==> calls[i].member != calls[j].member
  }

  /** Every stored score is that of a call that has added. */
  ghost predicate Sound(key: Option<Scores>, added: seq<Call>) {
    key.Some? ==> forall m :: m in key.value.scores ==> StoredFor(key.value, added, m)
  }

  ghost predicate StoredFor(key: Scores, added: seq<Call>, m: Member)
    requires m in key.scores
  {
    exists i :: 0 <= i < |added| && added[i] == Call(key.scores[m], m)
  }

  /** Every call of the last minute that has added is stored, in a key that outlives that minute. */
  ghost predicate Complete(key: Option<Scores>, added: seq<Call>, now: int) {
    forall i :: 0 <= i < |added| && added[i].at > now - RL_WINDOW_MS ==> Stored(key, added[i])
  }

  ghost predicate Stored(key: Option<Scores>, g: Call) {
    key.Some? && g.member in key.value.scores && key.value.scores[g.member] == g.at && g.at + RL_KEY_TTL_MS <= key.value.expires
  }

  ghost predicate InFlight(s: State, g: Call) {
    exists id :: id in s.calls && s.calls[id] == g
  }

  /** Everyone granted has added or is about to, and nobody else has. */
  ghost predicate Accounted(s: State) {
    && (forall g :: g in s.grants <==> InFlight(s, g) || g in s.added)
    && (forall g :: InFlight(s, g) ==> g !in s.added)
    && (forall a, b :: a in s.calls && b in s.calls && s.calls[a] == s.calls[b] ==> a == b)
  }

  ghost predicate LogsDiffer(s: State) {
    && MembersDiffer(s.grants) && MembersDiffer(s.added)
    && Sorted(Times(s.grants)) && forall i :: 0 <= i < |s.grants| ==> s.grants[i].at <= s.clock
  }

  ghost predicate Agrees(s: State) {
    LogsDiffer(s) && Accounted(s) && Sound(s.key, s.added) && Complete(s.key, s.added, s.clock)
  }

  predicate InLastMinute(g: Call, now: int) {
    now - RL_WINDOW_MS < g.at <= now
  }

  /** The members of the calls in the minute up to `now`. */
  function Recent(calls: seq<Call>, now: int): set<Member> {
    if calls == [] then {}
    else Recent(calls[..|calls| - 1], now)
         + if InLastMinute(calls[|calls| - 1], now) then {calls[|calls| - 1].member} else {}
  }

  lemma {:induction false} RecentMembers(calls: seq<Call>, now: int, m: Member)
    ensures m in Recent(calls, now) <==> exists i :: 0 <= i < |calls| && InLastMinute(calls[i], now) && calls[i].member == m
  {
    if calls != [] {
      var init := calls[..|calls| - 1];
      RecentMembers(init, now, m);
      assert forall i :: 0 <= i < |init| ==> calls[i] == init[i];
    }
  }

  /** The calls in the minute up to `now`. */
  function CountRecent(calls: seq<Call>, now: int): nat {
    CountIn(Times(calls), now - RL_WINDOW_MS + 1, now + 1)
  }

  /** Counting members counts calls. */
  lemma {:induction false} RecentCount(calls: seq<Call>, now: int)
    requires MembersDiffer(calls)
    ensures |Recent(calls, now)| == CountRecent(calls, now)
  {
    if calls != [] {
      var init, last := calls[..|calls| - 1], calls[|calls| - 1];
      RecentCount(init, now);
      assert Times(calls)[..|calls| - 1] == Times(init);
      RecentMembers(init, now, last.member);
      assert last.member !in Recent(init, now);
    }
  }

  lemma AddedNotLater(s: State, i: nat)
    requires LogsDiffer(s) && Accounted(s) && i < |s.added|
    ensures s.added[i].at <= s.clock
  {
    assert s.added[i] in s.grants;
  }

  lemma KeptIsRecent(s: State, now: nat, m: Member)
    requires Agrees(s) && s.clock <= now
    ensures m in Kept(s.key, now) <==> m in Recent(s.added, now)
  {
    RecentMembers(s.added, now, m);
    if m in Kept(s.key, now) {
      assert StoredFor(s.key.value, s.added, m);
      var i :| 0 <= i < |s.added| && s.added[i] == Call(s.key.value.scores[m], m);
      AddedNotLater(s, i);
      assert InLastMinute(s.added[i], now);
    }
    if m in Recent(s.added, now) {
      var i :| 0 <= i < |s.added| && InLastMinute(s.added[i], now) && s.added[i].member == m;
      assert Stored(s.key, s.added[i]);
    }
  }

  /** The pruned set holds as many entries as the log of adds has calls in the last minute. */
  lemma KeptCount(s: State, now: nat)
    requires Agrees(s) && s.clock <= now
    ensures |Kept(s.key, now)| == CountRecent(s.added, now)
  {
    forall m
      ensures m in Kept(s.key, now).Keys <==> m in Recent(s.added, now)
    {
      KeptIsRecent(s, now, m);
    }
    assert Kept(s.key, now).Keys == Recent(s.added, now);
    MapSize(Kept(s.key, now));
    RecentCount(s.added, now);
  }

  /** A call is refused exactly when the log holds 60 adds in the preceding minute. */
  lemma RefusedIff(s: State, now: nat)
    requires Agrees(s) && s.clock <= now
    ensures !Grants(s.key, now) <==> CountRecent(s.added, now) >= RL_REACT_MAX
  {
    KeptCount(s, now);
  }

  // ---- Every step keeps them in agreement ----------------------------------------------------------------

  lemma PruneStaysSound(key: Option<Scores>, added: seq<Call>, now: int)
    requires Sound(key, added)
    ensures Sound(AfterPrune(key, now), added)
  {
    if key.Some? {
      forall m | m in AfterPrune(key, now).value.scores
        ensures StoredFor(AfterPrune(key, now).value, added, m)
      {
        assert StoredFor(key.value, added, m);
        var i :| 0 <= i < |added| && added[i] == Call(key.value.scores[m], m);
        assert added[i] == Call(AfterPrune(key, now).value.scores[m], m);
      }
    }
  }

  lemma PruneStaysComplete(key: Option<Scores>, added: seq<Call>, clock: int, now: int)
    requires Complete(key, added, clock) && clock <= now
    ensures Complete(AfterPrune(key, now), added, now)
  {
    forall i | 0 <= i < |added| && added[i].at > now - RL_WINDOW_MS
      ensures Stored(AfterPrune(key, now), added[i])
    {
      assert Stored(key, added[i]);
    }
  }

  lemma AddStaysSound(key: Option<Scores>, added: seq<Call>, call: Call, now: int)
    requires Sound(key, added)
    ensures Sound(AfterAdd(key, call, now), added + [call])
  {
    var key', added' := AfterAdd(key, call, now), added + [call];
    forall m | m in key'.value.scores
      ensures StoredFor(key'.value, added', m)
    {
      if m == call.member {
        assert added'[|added|] == Call(key'.value.scores[m], m);
      } else {
        assert StoredFor(key.value, added, m);
        var i :| 0 <= i < |added| && added[i] == Call(key.value.scores[m], m);
        assert added'[i] == Call(key'.value.scores[m], m);
      }
    }
  }

  lemma AddStaysComplete(key: Option<Scores>, added: seq<Call>, call: Call, clock: int, now: int)
    requires Complete(key, added, clock) && clock <= now && call.at <= now
    requires forall i :: 0 <= i < |added| ==> added[i].member != call.member && added[i].at <= clock
    ensures Complete(AfterAdd(key, call, now), added + [call], now)
  {
    var key', added' := AfterAdd(key, call, now), added + [call];
    forall i | 0 <= i < |added'| && added'[i].at > now - RL_WINDOW_MS
      ensures Stored(key', added'[i])
    {
      if i < |added| {
        assert Stored(key, added[i]);
      }
    }
  }

  lemma GrantInFlight(s: State, s': State, id: CallId, call: Call, g: Call)
    requires id !in s.calls && s'.calls == s.calls[id := call]
    ensures InFlight(s', g) <==> InFlight(s, g) || g == call
  {
    if InFlight(s, g) {
      var x :| x in s.calls && s.calls[x] == g;
      assert s'.calls[x] == g;
    }
    assert s'.calls[id] == call;
  }

  lemma GrantAccounted(s: State, e: Event)
    requires LogsDiffer(s) && Accounted(s) && Enabled(s, e) && e.Count? && Grants(s.key, e.at)
    ensures Accounted(Next(s, e)) && LogsDiffer(Next(s, e))
  {
    var s' := Next(s, e);
    var call := Call(e.at, e.member);
    forall g
      ensures InFlight(s', g) <==> InFlight(s, g) || g == call
    {
      GrantInFlight(s, s', e.id, call, g);
    }
    assert call !in s.grants;
    forall a | a in s.calls
      ensures s.calls[a] != call
    {
      assert InFlight(s, s.calls[a]);
    }
    assert Times(s'.grants) == Times(s.grants) + [e.at];
  }

  lemma AddInFlight(s: State, s': State, id: CallId, g: Call)
    requires Accounted(s) && id in s.calls && s'.calls == s.calls - {id}
    ensures InFlight(s', g) <==> InFlight(s, g) && g != s.calls[id]
  {
    if InFlight(s, g) && g != s.calls[id] {
      var x :| x in s.calls && s.calls[x] == g;
      assert s'.calls[x] == g;
    }
  }

  lemma AddAccounted(s: State, e: Event)
    requires LogsDiffer(s) && Accounted(s) && Enabled(s, e) && e.Add?
    ensures Accounted(Next(s, e)) && LogsDiffer(Next(s, e))
  {
    var s', call := Next(s, e), s.calls[e.id];
    assert InFlight(s, call);
    forall g
      ensures InFlight(s', g) <==> InFlight(s, g) && g != call
    {
      AddInFlight(s, s', e.id, g);
    }
    forall i | 0 <= i < |s.added|
      ensures s.added[i].member != call.member
    {
      SameMember(s, s.added[i], call);
    }
  }

  /** A member names one grant. */
  lemma SameMember(s: State, a: Call, b: Call)
    requires LogsDiffer(s) && a in s.grants && b in s.grants && a != b
    ensures a.member != b.member
  {
    var i :| 0 <= i < |s.grants| && s.grants[i] == a;
    var j :| 0 <= j < |s.grants| && s.grants[j] == b;
  }

  lemma RefusalAccounted(s: State, s': State)
    requires LogsDiffer(s) && Accounted(s) && s.clock <= s'.clock
    requires s'.calls == s.calls && s'.grants == s.grants && s'.added == s.added
    ensures Accounted(s') && LogsDiffer(s')
  {
    assert forall g :: InFlight(s', g) == InFlight(s, g);
  }

  lemma CountAgrees(s: State, e: Event)
    requires Agrees(s) && Enabled(s, e) && e.Count?
    ensures Agrees(Next(s, e))
  {
    PruneStaysSound(s.key, s.added, e.at);
    PruneStaysComplete(s.key, s.added, s.clock, e.at);
    if Grants(s.key, e.at) {
      GrantAccounted(s, e);
    } else {
      RefusalAccounted(s, Next(s, e));
    }
  }

  lemma AddAgrees(s: State, e: Event)
    requires Agrees(s) && Enabled(s, e) && e.Add?
    ensures Agrees(Next(s, e))
  {
    var call := s.calls[e.id];
    assert InFlight(s, call);
    AddStaysSound(s.key, s.added, call, e.at);
    forall i | 0 <= i < |s.added|
      ensures s.added[i].member != call.member && s.added[i].at <= s.clock
    {
      SameMember(s, s.added[i], call);
      AddedNotLater(s, i);
    }
    AddStaysComplete(s.key, s.added, call, s.clock, e.at);
    AddAccounted(s, e);
  }

  lemma {:induction false} RunAgrees(es: seq<Event>)
    requires CanRun(es)
    ensures Agrees(Run(es))
    decreases |es|
  {
    if es != [] {
      RunAgrees(es[..|es| - 1]);
      if es[|es| - 1].Count? { CountAgrees(Run(es[..|es| - 1]), es[|es| - 1]); } else { AddAgrees(Run(es[..|es| - 1]), es[|es| - 1]); }
    }
  }

  ghost predicate NothingLost(s: State, now: nat) {
    forall i :: 0 <= i < |s.added| && now - RL_WINDOW_MS < s.added[i].at ==> s.added[i].member in LiveScores(s.key, now)
  }

  /**
   * The pruned, expiring set decides as the full log would, in every interleaving: a call is refused exactly when the
   * calls that have added number 60 in the preceding minute. Nor does expiry lose an entry that still counts.
   */
  lemma DecidesLikeFullLog(es: seq<Event>, now: nat)
    requires CanRun(es) && Run(es).clock <= now
    ensures !Grants(Run(es).key, now) <==> CountRecent(Run(es).added, now) >= 60
    ensures NothingLost(Run(es), now)
  {
    RunAgrees(es);
    RefusedIff(Run(es), now);
    var s := Run(es);
    forall i | 0 <= i < |s.added| && now - RL_WINDOW_MS < s.added[i].at
      ensures s.added[i].member in LiveScores(s.key, now)
    {
      assert Stored(s.key, s.added[i]);
    }
  }

  // ---- How many are granted ------------------------------------------------------------------------------

  function Members(calls: map<CallId, Call>): set<Member> {
    set id | id in calls :: calls[id].member
  }

  lemma {:induction false} ImageSmaller(calls: map<CallId, Call>, ids: set<CallId>)
    requires ids <= calls.Keys
    ensures |set id | id in ids :: calls[id].member| <= |ids|
  {
    if ids != {} {
      var x :| x in ids;
      ImageSmaller(calls, ids - {x});
      assert (set id | id in ids :: calls[id].member) == (set id | id in ids - {x} :: calls[id].member) + {calls[x].member};
    }
  }

  lemma MembersSmaller(calls: map<CallId, Call>)
    ensures |Members(calls)| <= |calls|
  {
    ImageSmaller(calls, calls.Keys);
    assert Members(calls) == set id | id in calls.Keys :: calls[id].member;
    MapSize(calls);
  }

  lemma GrantedAddedOrInFlight(s: State, now: nat, m: Member)
    requires Accounted(s) && m in Recent(s.grants, now)
    ensures m in Recent(s.added, now) + Members(s.calls)
  {
    RecentMembers(s.grants, now, m);
    RecentMembers(s.added, now, m);
    var i :| 0 <= i < |s.grants| && InLastMinute(s.grants[i], now) && s.grants[i].member == m;
    assert s.grants[i] in s.grants;
    if InFlight(s, s.grants[i]) {
      var id :| id in s.calls && s.calls[id] == s.grants[i];
    } else {
      var j :| 0 <= j < |s.added| && s.added[j] == s.grants[i];
    }
  }

  /** The grants of a minute have added, or are in flight. */
  lemma GrantsBound(s: State, now: nat)
    requires Agrees(s) && s.clock <= now
    ensures CountRecent(s.grants, now) <= CountRecent(s.added, now) + |s.calls|
  {
    forall m | m in Recent(s.grants, now)
      ensures m in Recent(s.added, now) + Members(s.calls)
    {
      GrantedAddedOrInFlight(s, now, m);
    }
    SubsetSmaller(Recent(s.grants, now), Recent(s.added, now) + Members(s.calls));
    RecentCount(s.grants, now);
    RecentCount(s.added, now);
    MembersSmaller(s.calls);
  }

  /** If the grant `n` places back is less than a minute old, the last minute holds `n` of them. */
  lemma FullMinute(grants: seq<Call>, now: int, n: nat)
    requires Sorted(Times(grants)) && 1 <= n <= |grants| && forall i :: 0 <= i < |grants| ==> grants[i].at <= now
    requires grants[|grants| - n].at + RL_WINDOW_MS > now
    ensures CountRecent(grants, now) >= n
  {
    var ts := Times(grants);
    var k := |ts| - n;
    assert ts == ts[..k] + ts[k..];
    CountConcat(ts[..k], ts[k..], now - RL_WINDOW_MS + 1, now + 1);
    CountAll(ts[k..], now - RL_WINDOW_MS + 1, now + 1);
  }

  ghost predicate GrantsSpaced(s: State, k: nat) {
    Spaced(Times(s.grants), RL_REACT_MAX - 1 + k, RL_WINDOW_MS)
  }

  /** A call is granted only when the grant 59 + k places back is a minute old. */
  lemma GrantsMakeRoom(s: State, now: nat, n: nat)
    requires Agrees(s) && s.clock <= now && Grants(s.key, now) && RL_REACT_MAX + |s.calls| <= n <= |s.grants|
    ensures s.grants[|s.grants| - n].at + RL_WINDOW_MS <= now
  {
    GrantsBound(s, now);
    RefusedIff(s, now);
    if s.grants[|s.grants| - n].at + RL_WINDOW_MS > now {
      FullMinute(s.grants, now, n);
    }
  }

  lemma GrantKeepsSpacing(s: State, e: Event, k: nat)
    requires Agrees(s) && Enabled(s, e) && e.Count? && Grants(s.key, e.at)
    requires GrantsSpaced(s, k) && |s.calls| < k
    ensures GrantsSpaced(Next(s, e), k)
  {
    var n := RL_REACT_MAX - 1 + k;
    if |s.grants| >= n {
      GrantsMakeRoom(s, e.at, n);
    }
    SpacedSnoc(Times(s.grants), n, RL_WINDOW_MS, e.at);
    assert Times(Next(s, e).grants) == Times(s.grants) + [e.at];
  }

  lemma {:induction false} RunKeepsSpacing(es: seq<Event>, k: nat)
    requires CanRun(es) && AtMost(es, k)
    ensures GrantsSpaced(Run(es), k)
    decreases |es|
  {
    if es != [] {
      var s, e := Run(es[..|es| - 1]), es[|es| - 1];
      RunKeepsSpacing(es[..|es| - 1], k);
      RunAgrees(es[..|es| - 1]);
      if e.Count? && Grants(s.key, e.at) {
        assert |Next(s, e).calls| == |s.calls| + 1;
        GrantKeepsSpacing(s, e, k);
      }
    }
  }

  lemma MinuteBound(s: State, k: nat, from: int)
    requires Sorted(Times(s.grants)) && GrantsSpaced(s, k)
    ensures CountIn(Times(s.grants), from, from + RL_WINDOW_MS) <= RL_REACT_MAX - 1 + k
  {
    SpacedBoundsWindow(Times(s.grants), RL_REACT_MAX - 1 + k, RL_WINDOW_MS, from);
  }

  /** With at most `k` calls between count and add, no minute, wherever it lies, holds more than 59 + k grants. */
  lemma AnyMinute(es: seq<Event>, k: nat, from: int)
    requires CanRun(es) && AtMost(es, k)
    ensures CountIn(Times(Run(es).grants), from, from + 60000) <= 59 + k
  {
    RunAgrees(es);
    assert Sorted(Times(Run(es).grants));
    RunKeepsSpacing(es, k);
    MinuteBound(Run(es), k, from);
  }

  class ReactionLimiter {
    var keys: map<UserId, Scores>

    constructor ()
      ensures keys == map[]
    {
      keys := map[];
    }

    function KeyOf(userId: UserId): Option<Scores>
      reads this
    {
      if userId in keys then Some(keys[userId]) else None
    }

    /** A call that meets no other: the count at once followed by the add. `member` stands for the generated name. */
    method CheckRateLimit(userId: UserId, now: nat, member: Member) returns (allowed: bool)
      modifies this
      ensures allowed == Grants(old(KeyOf(userId)), now)
      ensures KeyOf(userId) == if allowed then AfterAdd(AfterPrune(old(KeyOf(userId)), now), Call(now, member), now)
                               else AfterPrune(old(KeyOf(userId)), now)
      ensures keys - {userId} == old(keys) - {userId}
      // Fewer than 60 entries of the last minute, in a key that is alive.
      ensures var live := if userId in old(keys) && now < old(keys)[userId].expires then old(keys)[userId].scores else map[];
              var recent := map m | m in live && now - 60000 < live[m] :: live[m];
              && (allowed <==> |recent| < 60)
              && (allowed ==> userId in keys && keys[userId] == Scores(recent[member := now], now + 70000))
              && (!allowed ==> userId in keys && keys[userId] == Scores(recent, old(keys)[userId].expires))
    {
      var windowStart := now - RL_WINDOW_MS;
      var live := LiveScores(KeyOf(userId), now);
      var kept := Pruned(live, windowStart);
      assert kept == map m | m in live && now - 60000 < live[m] :: live[m];
      if userId in keys {
        keys := keys[userId := keys[userId].(scores := kept)];
      }
      var count := |kept|;
      if count >= RL_REACT_MAX {
        return false;
      }
      live := LiveScores(KeyOf(userId), now);
      keys := keys[userId := Scores(live[member := now], now + RL_KEY_TTL_MS)];
      return true;
    }
  }
}
