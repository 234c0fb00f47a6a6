/**
 * The fixed-window counters: INCR, and EXPIRE on the first hit. One scheme, two uses: at most 10 sends per
 * second, and at most 1 location update per 2 seconds. Times are in milliseconds.
 */
module FixedWindow {
  import opened Common
  import opened Messages
  import opened Windows

  const FLOOD_MAX_PER_SEC := 10
  const FLOOD_WINDOW_MS := 1000
  const LOCATION_MAX := 1
  const LOCATION_WINDOW_MS := 2000

  /** A counter key; a key made by INCR alone never expires. */
  datatype Counter = Counter(count: nat, expires: Option<int>)

  predicate Live(c: Option<Counter>, now: int) {
    c.Some? && (c.value.expires.Some? ==> now < c.value.expires.value)
  }

  function Incr(c: Option<Counter>, now: int): Counter {
    if Live(c, now) then c.value.(count := c.value.count + 1) else Counter(1, None)
  }

  /** INCR, EXPIRE when the count is 1. */
  function Hit(c: Option<Counter>, now: int, window: int): Counter {
    var up := Incr(c, now);
    if up.count == 1 then up.(expires := Some(now + window)) else up
  }

  /**
   * A run of hits with the history it leaves: the instants of the allowed ones, and the position in that
   * history where the current lifetime of the counter begins.
   */
  datatype State = State(clock: nat, counter: Option<Counter>, allowed: seq<int>, first: nat)

  function Step(s: State, now: nat, limit: nat, window: int): State {
    var c := Hit(s.counter, now, window);
    State(now, Some(c), if c.count <= limit then s.allowed + [now] else s.allowed,
          if c.count == 1 then |s.allowed| else s.first)
  }

  function Run(s: State, hits: seq<nat>, limit: nat, window: int): State {
    if hits == [] then s else Step(Run(s, hits[..|hits| - 1], limit, window), hits[|hits| - 1], limit, window)
  }

  const START := State(0, None, [], 0)

  /** The allowed hits from `first` on belong to the current lifetime; a whole lifetime lies before it. */
  ghost predicate Inv(s: State, limit: nat, window: int)
    requires limit >= 1
  {
    && Sorted(s.allowed)
    && (forall i :: 0 <= i < |s.allowed| ==> s.allowed[i] <= s.clock)
    && Spaced(s.allowed, 2 * limit - 1, window)
    && (s.counter.None? ==> s.allowed == [])
    && (s.counter.Some? ==>
          && s.counter.value.count >= 1 && s.counter.value.expires.Some?
          && s.first < |s.allowed|
          && |s.allowed| - s.first == Min(s.counter.value.count, limit)
          && s.allowed[s.first] == s.counter.value.expires.value - window
          && forall j :: 0 <= j <= s.first - limit ==> s.allowed[j] + window <= s.allowed[s.first])
  }

  lemma StepKeepsInv(s: State, now: nat, limit: nat, window: int)
    requires limit >= 1 && window >= 1 && Inv(s, limit, window) && s.clock <= now
    ensures Inv(Step(s, now, limit, window), limit, window)
  {
    var s' := Step(s, now, limit, window);
    if s'.counter.value.count == 1 {
      NewLifetime(s, now, limit, window);
    } else if s'.counter.value.count <= limit {
      SameLifetime(s, now, limit, window);
    }
  }

  lemma FullLifetimeBehind(s: State, now: nat, limit: nat, window: int)
    requires limit >= 1 && window >= 1 && Inv(s, limit, window) && s.clock <= now && !Live(s.counter, now)
    ensures forall j :: 0 <= j <= |s.allowed| - limit ==> s.allowed[j] + window <= now
  {
    assert forall j :: 0 <= j <= |s.allowed| - limit ==> s.allowed[j] <= s.allowed[s.first];
  }

  lemma NewLifetime(s: State, now: nat, limit: nat, window: int)
    requires limit >= 1 && window >= 1 && Inv(s, limit, window) && s.clock <= now
    requires Step(s, now, limit, window).counter.value.count == 1
    ensures Inv(Step(s, now, limit, window), limit, window)
  {
    FullLifetimeBehind(s, now, limit, window);
    var s' := Step(s, now, limit, window);
    assert s'.allowed == s.allowed + [now] && s'.first == |s.allowed| && s'.counter == Some(Counter(1, Some(now + window)));
  }

  lemma SameLifetime(s: State, now: nat, limit: nat, window: int)
    requires limit >= 1 && window >= 1 && Inv(s, limit, window) && s.clock <= now
    requires 1 < Step(s, now, limit, window).counter.value.count <= limit
    ensures Inv(Step(s, now, limit, window), limit, window)
  {
    var n := |s.allowed|;
    assert Live(s.counter, now);
    assert n - (2 * limit - 1) <= s.first - limit;
    assert s.allowed[s.first] <= now;
    assert Step(s, now, limit, window).allowed == s.allowed + [now];
  }

  lemma {:induction false} RunKeepsInv(hits: seq<nat>, limit: nat, window: int)
    requires limit >= 1 && window >= 1 && Sorted(hits)
    ensures Inv(Run(START, hits, limit, window), limit, window)
    ensures Run(START, hits, limit, window).clock == if hits == [] then 0 else hits[|hits| - 1]
  {
    if hits != [] {
      var init, last := hits[..|hits| - 1], hits[|hits| - 1];
      RunKeepsInv(init, limit, window);
      StepKeepsInv(Run(START, init, limit, window), last, limit, window);
    }
  }

  /**
   * Over every run: at most `limit` hits are allowed in the current lifetime of the counter, and at most
   * 2 * limit - 1 in any window of its length, wherever the window starts.
   */
  lemma AnyWindow(hits: seq<nat>, limit: nat, window: int, from: int)
    requires limit >= 1 && window >= 1 && Sorted(hits)
    ensures var s := Run(START, hits, limit, window);
            && |s.allowed| - s.first <= limit
            && CountIn(s.allowed, from, from + window) <= 2 * limit - 1
  {
    RunKeepsInv(hits, limit, window);
    SpacedBoundsWindow(Run(START, hits, limit, window).allowed, 2 * limit - 1, window, from);
  }

  /** No more than 19 sends get through in any second. */
  lemma FloodBound(hits: seq<nat>, from: int)
    requires Sorted(hits)
    ensures CountIn(Run(START, hits, FLOOD_MAX_PER_SEC, FLOOD_WINDOW_MS).allowed, from, from + 1000) <= 19
  {
    AnyWindow(hits, FLOOD_MAX_PER_SEC, FLOOD_WINDOW_MS, from);
  }

  /** Accepted location updates of a user are at least 2 seconds apart. */
  lemma LocationUpdatesApart(hits: seq<nat>, i: nat, j: nat)
    requires Sorted(hits)
    requires i < j < |Run(START, hits, LOCATION_MAX, LOCATION_WINDOW_MS).allowed|
    ensures var allowed := Run(START, hits, LOCATION_MAX, LOCATION_WINDOW_MS).allowed; allowed[i] + 2000 <= allowed[j]
  {
    RunKeepsInv(hits, LOCATION_MAX, LOCATION_WINDOW_MS);
    var allowed := Run(START, hits, LOCATION_MAX, LOCATION_WINDOW_MS).allowed;
    assert allowed[j - 1] + 2000 <= allowed[j];
    assert allowed[i] <= allowed[j - 1];
  }

  // ---- The bound is met ----------------------------------------------------------------------------------

  function Repeat(t: nat, n: nat): (r: seq<nat>)
    ensures |r| == n && forall i :: 0 <= i < n ==> r[i] == t
  {
    seq(n, i => t)
  }

  lemma {:induction false} RunConcat(s: State, a: seq<nat>, b: seq<nat>, limit: nat, window: int)
    ensures Run(s, a + b, limit, window) == Run(Run(s, a, limit, window), b, limit, window)
  {
    if b == [] {
      assert a + b == a;
    } else {
      assert (a + b)[..|a + b| - 1] == a + b[..|b| - 1];
      RunConcat(s, a, b[..|b| - 1], limit, window);
    }
  }

  lemma RunOne(s: State, t: nat, limit: nat, window: int)
    ensures Run(s, [t], limit, window) == Step(s, t, limit, window)
  {
    assert [t][..0] == [];
  }

  /** `n` further hits within the lifetime and the limit are all allowed. */
  lemma {:induction false} Burst(s: State, t: nat, n: nat, limit: nat, window: int)
    requires s.counter.Some? && s.counter.value.expires.Some? && t < s.counter.value.expires.value
    requires 1 <= s.counter.value.count && s.counter.value.count + n <= limit
    ensures Run(s, Repeat(t, n), limit, window).allowed == s.allowed + Repeat(t, n)
    ensures Run(s, Repeat(t, n), limit, window).counter == Some(s.counter.value.(count := s.counter.value.count + n))
  {
    if n > 0 {
      assert Repeat(t, n)[..n - 1] == Repeat(t, n - 1);
      Burst(s, t, n - 1, limit, window);
      assert Repeat(t, n) == Repeat(t, n - 1) + [t];
    }
  }

  /** One hit at 0, the rest of the limit just before the counter expires, then a full limit at its expiry. */
  function WorstCase(limit: nat, window: nat): (hits: seq<nat>)
    requires limit >= 1 && window >= 2
    ensures |hits| == 2 * limit
    ensures forall i :: 0 <= i < 2 * limit ==> hits[i] == if i == 0 then 0 else if i < limit then window - 1 else window
  {
    ([0] + Repeat(window - 1, limit - 1)) + ([window] + Repeat(window, limit - 1))
  }

  /** A hit that finds no live counter starts a lifetime, and the rest of the limit at one later instant is allowed too. */
  lemma FullLifetime(s: State, t: nat, u: nat, limit: nat, window: nat)
    requires limit >= 1 && t <= u < t + window && !Live(s.counter, t)
    ensures var s' := Run(s, [t] + Repeat(u, limit - 1), limit, window);
            s'.allowed == s.allowed + ([t] + Repeat(u, limit - 1)) && s'.counter == Some(Counter(limit, Some(t + window)))
  {
    var first := Run(s, [t], limit, window);
    RunOne(s, t, limit, window);
    RunConcat(s, [t], Repeat(u, limit - 1), limit, window);
    Burst(first, u, limit - 1, limit, window);
    assert (s.allowed + [t]) + Repeat(u, limit - 1) == s.allowed + ([t] + Repeat(u, limit - 1));
  }

  lemma WorstCaseAllAllowed(limit: nat, window: nat)
    requires limit >= 1 && window >= 2
    ensures Run(START, WorstCase(limit, window), limit, window).allowed == WorstCase(limit, window)
  {
    var late, early := [0] + Repeat(window - 1, limit - 1), [window] + Repeat(window, limit - 1);
    FullLifetime(START, 0, window - 1, limit, window);
    RunConcat(START, late, early, limit, window);
    FullLifetime(Run(START, late, limit, window), window, window, limit, window);
    assert [] + late == late;
  }

  /** 2 * limit - 1 is exact: hits late in one lifetime and early in the next fill one window with that many. */
  lemma BoundIsMet(limit: nat, window: nat)
    requires limit >= 1 && window >= 2
    ensures Sorted(WorstCase(limit, window))
    ensures CountIn(Run(START, WorstCase(limit, window), limit, window).allowed, 1, 1 + window) == 2 * limit - 1
  {
    var hits := WorstCase(limit, window);
    WorstCaseAllAllowed(limit, window);
    assert hits == [0] + hits[1..];
    CountConcat([0], hits[1..], 1, 1 + window);
    CountAll(hits[1..], 1, 1 + window);
    assert [0][..0] == [];
  }

  // ---- When one window keeps to the limit ----------------------------------------------------------------

  ghost predicate From(hits: seq<nat>, from: nat) {
    Sorted(hits) && forall i :: 0 <= i < |hits| ==> from <= hits[i]
  }

  function InWindow(s: State, from: nat, window: int): nat {
    CountIn(s.allowed, from, from + window)
  }

  /** Whatever hits follow from `from` on, the window that starts there allows at most `limit`. */
  ghost predicate WindowHolds(s: State, from: nat, limit: nat, window: int) {
    forall hits :: From(hits, from) ==> InWindow(Run(s, hits, limit, window), from, window) <= limit
  }

  /** The window has opened within a lifetime that allows nothing more, or after one; or a lifetime that outlasts it runs. */
  ghost predicate Safe(s: State, from: nat, limit: nat, window: int) {
    && (s.counter.Some? ==> s.counter.value.expires.Some?)
    && InWindow(s, from, window) <= limit
    && (|| (InWindow(s, from, window) == 0 && (s.counter.None? || s.counter.value.count >= limit || s.counter.value.expires.value <= from))
        || (s.counter.Some? && from + window <= s.counter.value.expires.value && InWindow(s, from, window) <= s.counter.value.count)
        || from + window <= s.clock)
  }

  /** A new lifetime within the window outlasts it. */
  lemma FreshStaysSafe(s: State, now: nat, from: nat, limit: nat, window: int)
    requires limit >= 1 && window >= 1 && Safe(s, from, limit, window) && from <= now && s.clock <= now && !Live(s.counter, now)
    ensures Safe(Step(s, now, limit, window), from, limit, window)
  {
    assert Step(s, now, limit, window).counter == Some(Counter(1, Some(now + window)));
    CountSnoc(s.allowed, now, from, from + window);
  }

  lemma LiveStaysSafe(s: State, now: nat, from: nat, limit: nat, window: int)
    requires limit >= 1 && window >= 1 && Safe(s, from, limit, window) && from <= now && s.clock <= now && Live(s.counter, now)
    requires s.counter.value.count >= 1
    ensures Safe(Step(s, now, limit, window), from, limit, window)
  {
    assert Step(s, now, limit, window).counter == Some(s.counter.value.(count := s.counter.value.count + 1));
    CountSnoc(s.allowed, now, from, from + window);
  }

  ghost predicate Counting(s: State) {
    s.counter.Some? ==> s.counter.value.count >= 1
  }

  lemma {:induction false} RunStaysSafe(s: State, hits: seq<nat>, from: nat, limit: nat, window: int)
    requires limit >= 1 && window >= 1 && Safe(s, from, limit, window) && Counting(s) && s.clock <= from && From(hits, from)
    ensures Safe(Run(s, hits, limit, window), from, limit, window) && Counting(Run(s, hits, limit, window))
    ensures s.clock <= Run(s, hits, limit, window).clock
    ensures hits != [] ==> Run(s, hits, limit, window).clock == hits[|hits| - 1]
  {
    if hits != [] {
      var init, last := hits[..|hits| - 1], hits[|hits| - 1];
      RunStaysSafe(s, init, from, limit, window);
      var t := Run(s, init, limit, window);
      if Live(t.counter, last) { LiveStaysSafe(t, last, from, limit, window); } else { FreshStaysSafe(t, last, from, limit, window); }
    }
  }

  lemma {:induction false} CountOutside(ts: seq<int>, from: int, to: int)
    requires forall i :: 0 <= i < |ts| ==> ts[i] < from
    ensures CountIn(ts, from, to) == 0
  {
    if ts != [] {
      CountOutside(ts[..|ts| - 1], from, to);
    }
  }

  /** The rest of a lifetime at the start of the window, and a whole one as soon as it ends. */
  lemma TwoLifetimes(s: State, from: nat, e: nat, limit: nat, window: nat)
    requires limit >= 1 && window >= 1 && Live(s.counter, from) && s.counter.value.expires == Some(e)
    requires 1 <= s.counter.value.count < limit
    ensures var early, late := Repeat(from, limit - s.counter.value.count), [e] + Repeat(e, limit - 1);
            Run(s, early + late, limit, window).allowed == s.allowed + (early + late)
  {
    var early, late := Repeat(from, limit - s.counter.value.count), [e] + Repeat(e, limit - 1);
    Burst(s, from, limit - s.counter.value.count, limit, window);
    RunConcat(s, early, late, limit, window);
    FullLifetime(Run(s, early, limit, window), e, e, limit, window);
    assert (s.allowed + early) + late == s.allowed + (early + late);
  }

  lemma CountAfter(before: seq<int>, hits: seq<nat>, from: nat, window: nat)
    requires forall i :: 0 <= i < |before| ==> before[i] < from
    requires forall i :: 0 <= i < |hits| ==> from <= hits[i] < from + window
    ensures CountIn(before + hits, from, from + window) == |hits|
  {
    CountConcat(before, hits, from, from + window);
    CountOutside(before, from, from + window);
    CountAll(hits, from, from + window);
  }

  lemma TwoLifetimesOverflow(s: State, from: nat, limit: nat, window: nat) returns (hits: seq<nat>)
    requires limit >= 1 && window >= 1 && Inv(s, limit, window) && s.clock < from
    requires Live(s.counter, from) && s.counter.value.count < limit
    ensures From(hits, from) && InWindow(Run(s, hits, limit, window), from, window) > limit
  {
    var e := s.counter.value.expires.value;
    assert s.allowed[s.first] <= s.clock;
    TwoLifetimes(s, from, e, limit, window);
    hits := Repeat(from, limit - s.counter.value.count) + ([e] + Repeat(e, limit - 1));
    CountAfter(s.allowed, hits, from, window);
  }

  /**
   * Exactly when the window of one length that starts at `from` stays within the limit, whatever comes: when no counter
   * is alive at its start, or the living one has reached the limit. A caller can look at the counter before the window.
   */
  lemma WithinLimitIff(s: State, from: nat, limit: nat, window: nat)
    requires limit >= 1 && window >= 1 && Inv(s, limit, window) && s.clock < from
    ensures WindowHolds(s, from, limit, window) <==> !Live(s.counter, from) || s.counter.value.count >= limit
  {
    if !Live(s.counter, from) || s.counter.value.count >= limit {
      CountOutside(s.allowed, from, from + window);
      forall hits | From(hits, from)
        ensures InWindow(Run(s, hits, limit, window), from, window) <= limit
      {
        RunStaysSafe(s, hits, from, limit, window);
      }
    } else {
      var hits := TwoLifetimesOverflow(s, from, limit, window);
    }
  }

  /** In particular for sends after any run: a second holds at most 10 if no counter is alive at its start, or it is used up. */
  lemma TenASecondIff(hits: seq<nat>, from: nat)
    requires Sorted(hits) && (hits != [] ==> hits[|hits| - 1] < from) && from > 0
    ensures var s := Run(START, hits, FLOOD_MAX_PER_SEC, FLOOD_WINDOW_MS);
            WindowHolds(s, from, 10, 1000) <==> !Live(s.counter, from) || s.counter.value.count >= 10
  {
    RunKeepsInv(hits, FLOOD_MAX_PER_SEC, FLOOD_WINDOW_MS);
    WithinLimitIff(Run(START, hits, FLOOD_MAX_PER_SEC, FLOOD_WINDOW_MS), from, FLOOD_MAX_PER_SEC, FLOOD_WINDOW_MS);
  }

  // ---- The two services ----------------------------------------------------------------------------------

  function Of(counters: map<UserId, Counter>, userId: UserId): Option<Counter> {
    if userId in counters then Some(counters[userId]) else None
  }

  /** All hits of each user, in order. */
  type Log = map<UserId, seq<nat>>

  ghost function Hits(log: Log, userId: UserId): seq<nat> {
    if userId in log then log[userId] else []
  }

  ghost predicate NotBefore(log: Log, userId: UserId, now: nat) {
    Hits(log, userId) != [] ==> Hits(log, userId)[|Hits(log, userId)| - 1] <= now
  }

  /** The counters are those that all the hits leave. */
  ghost predicate Follow(counters: map<UserId, Counter>, log: Log, limit: nat, window: int) {
    forall u :: FollowsFor(counters, log, limit, window, u)
  }

  ghost predicate FollowsFor(counters: map<UserId, Counter>, log: Log, limit: nat, window: int, u: UserId) {
    Sorted(Hits(log, u)) && Of(counters, u) == Run(START, Hits(log, u), limit, window).counter
  }

  /** The hits of a user that were let through. */
  ghost function Allowed(log: Log, limit: nat, window: int, u: UserId): seq<int> {
    Run(START, Hits(log, u), limit, window).allowed
  }

  lemma OneMoreHit(hits: seq<nat>, now: nat, limit: nat, window: int)
    ensures var s, s' := Run(START, hits, limit, window), Run(START, hits + [now], limit, window);
            && s'.counter == Some(Hit(s.counter, now, window))
            && s'.allowed == s.allowed + if Hit(s.counter, now, window).count <= limit then [now] else []
  {
    assert (hits + [now])[..|hits|] == hits;
    var s := Run(START, hits, limit, window);
    assert s.allowed + [] == s.allowed;
  }

  lemma FollowOneMore(counters: map<UserId, Counter>, log: Log, limit: nat, window: int, u: UserId, now: nat)
    requires Follow(counters, log, limit, window) && NotBefore(log, u, now)
    ensures Follow(counters[u := Hit(Of(counters, u), now, window)], log[u := Hits(log, u) + [now]], limit, window)
    ensures Allowed(log[u := Hits(log, u) + [now]], limit, window, u) ==
            Allowed(log, limit, window, u) + if Hit(Of(counters, u), now, window).count <= limit then [now] else []
  {
    var counters', log' := counters[u := Hit(Of(counters, u), now, window)], log[u := Hits(log, u) + [now]];
    assert FollowsFor(counters, log, limit, window, u);
    assert Hits(log', u) == Hits(log, u) + [now];
    OneMoreHit(Hits(log, u), now, limit, window);
    forall v
      ensures FollowsFor(counters', log', limit, window, v)
    {
      assert FollowsFor(counters, log, limit, window, v);
      assert v != u ==> Hits(log', v) == Hits(log, v) && Of(counters', v) == Of(counters, v);
    }
  }

  /** No second holds more than 19 of them. */
  ghost predicate NineteenASecond(ts: seq<int>) {
    forall from, to :: IsSecond(from, to) ==> CountIn(ts, from, to) <= 19
  }

  predicate IsSecond(from: int, to: int) {
    to == from + 1000
  }

  ghost predicate TwoSecondsApart(ts: seq<int>) {
    forall i, j :: 0 <= i < j < |ts| ==> ts[i] + 2000 <= ts[j]
  }

  lemma AllowedApart(log: Log, u: UserId)
    requires Sorted(Hits(log, u))
    ensures NineteenASecond(Allowed(log, FLOOD_MAX_PER_SEC, FLOOD_WINDOW_MS, u))
    ensures TwoSecondsApart(Allowed(log, LOCATION_MAX, LOCATION_WINDOW_MS, u))
  {
    forall from, to | IsSecond(from, to)
      ensures CountIn(Allowed(log, FLOOD_MAX_PER_SEC, FLOOD_WINDOW_MS, u), from, to) <= 19
    {
      FloodBound(Hits(log, u), from);
    }
    forall i: nat, j: nat | i < j < |Allowed(log, LOCATION_MAX, LOCATION_WINDOW_MS, u)|
      ensures Allowed(log, LOCATION_MAX, LOCATION_WINDOW_MS, u)[i] + 2000 <= Allowed(log, LOCATION_MAX, LOCATION_WINDOW_MS, u)[j]
    {
      LocationUpdatesApart(Hits(log, u), i, j);
    }
  }

  /** Which hit this is of the counter that is alive now, if there is one. */
  ghost function CountAt(counters: map<UserId, Counter>, userId: UserId, now: int): nat {
    if userId in counters && (counters[userId].expires.None? || now < counters[userId].expires.value) then counters[userId].count + 1 else 1
  }

  class Counters {
    var flood: map<UserId, Counter>      // chat:flood:<user>
    var location: map<UserId, Counter>   // loc:rl:<user>
    ghost var sends: Log
    ghost var moves: Log

    constructor ()
      ensures Valid() && sends == map[] && moves == map[]
    {
      flood, location, sends, moves := map[], map[], map[], map[];
    }

    ghost predicate Valid()
      reads this
    {
      && Follow(flood, sends, FLOOD_MAX_PER_SEC, FLOOD_WINDOW_MS)
      && Follow(location, moves, LOCATION_MAX, LOCATION_WINDOW_MS)
    }

    ghost function Sent(userId: UserId): seq<int>
      reads this
    {
      Allowed(sends, FLOOD_MAX_PER_SEC, FLOOD_WINDOW_MS, userId)
    }

    ghost function Moved(userId: UserId): seq<int>
      reads this
    {
      Allowed(moves, LOCATION_MAX, LOCATION_WINDOW_MS, userId)
    }

    /** A send is let through or not; those let through never exceed 19 in a second. */
    method CheckFloodControl(userId: UserId, now: nat) returns (allowed: bool)
      requires Valid() && NotBefore(sends, userId, now)
      modifies this`flood, this`sends
      ensures Valid() && sends == old(sends)[userId := Hits(old(sends), userId) + [now]]
      ensures Sent(userId) == old(Sent(userId)) + if allowed then [now] else []
      ensures NineteenASecond(Sent(userId)) && flood - {userId} == old(flood) - {userId}
      ensures var n := CountAt(old(flood), userId, now);
              && (allowed <==> n <= 10)
              && userId in flood && flood[userId] == Counter(n, if n == 1 then Some(now + 1000) else old(flood)[userId].expires)
    {
      FollowOneMore(flood, sends, FLOOD_MAX_PER_SEC, FLOOD_WINDOW_MS, userId, now);
      var counter := Incr(Of(flood, userId), now);
      UpdateTwice(flood, userId, counter, counter.(expires := Some(now + FLOOD_WINDOW_MS)));
      flood := flood[userId := counter];
      if counter.count == 1 {
        flood := flood[userId := counter.(expires := Some(now + FLOOD_WINDOW_MS))];
      }
      sends := sends[userId := Hits(sends, userId) + [now]];
      assert FollowsFor(flood, sends, FLOOD_MAX_PER_SEC, FLOOD_WINDOW_MS, userId);
      AllowedApart(sends, userId);
      return counter.count <= FLOOD_MAX_PER_SEC;
    }

    /** A location update is accepted or not; those accepted are 2 seconds apart. */
    method CheckRateLimit(userId: UserId, now: nat) returns (allowed: bool)
      requires Valid() && NotBefore(moves, userId, now)
      modifies this`location, this`moves
      ensures Valid() && moves == old(moves)[userId := Hits(old(moves), userId) + [now]]
      ensures Moved(userId) == old(Moved(userId)) + if allowed then [now] else []
      ensures TwoSecondsApart(Moved(userId)) && location - {userId} == old(location) - {userId}
      ensures var n := CountAt(old(location), userId, now);
              && (allowed <==> n <= 1)
              && userId in location && location[userId] == Counter(n, if n == 1 then Some(now + 2000) else old(location)[userId].expires)
    {
      FollowOneMore(location, moves, LOCATION_MAX, LOCATION_WINDOW_MS, userId, now);
      var counter := Incr(Of(location, userId), now);
      UpdateTwice(location, userId, counter, counter.(expires := Some(now + LOCATION_WINDOW_MS)));
      location := location[userId := counter];
      if counter.count == 1 {
        location := location[userId := counter.(expires := Some(now + LOCATION_WINDOW_MS))];
      }
      moves := moves[userId := Hits(moves, userId) + [now]];
      assert FollowsFor(location, moves, LOCATION_MAX, LOCATION_WINDOW_MS, userId);
      AllowedApart(moves, userId);
      return counter.count <= LOCATION_MAX;
    }
  }
}
