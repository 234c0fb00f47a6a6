/**
 * The room-access cache, seen by one user in one room. A check is three steps (GET, query, SET), so other
 * checks, membership changes and invalidations can come between them.
 */
module AccessCache {
  import opened Common
  import opened Messages

  const GRANT_TTL := 300
  const DENY_TTL := 30

  function Ttl(granted: bool): int {
    if granted then GRANT_TTL else DENY_TTL
  }

  type Call = nat

  /** The cached '1' or '0'. A key is alive strictly before its expiry. */
  datatype Cached = Cached(granted: bool, expires: int)

  /** A check that missed the cache: about to query, or holding the answer it read at `at`. */
  datatype Progress = Missed | Answered(granted: bool, at: int)

  datatype State = State(clock: int, member: bool, cache: Option<Cached>, calls: map<Call, Progress>)

  datatype Act =
    | SetMember(member: bool)   // the row changes, committed
    | Invalidate
    | Get(c: Call)
    | Query(c: Call)
    | Store(c: Call)

  datatype Event = Event(at: int, act: Act)

  predicate Live(cache: Option<Cached>, now: int) {
    cache.Some? && now < cache.value.expires
  }

  predicate Enabled(s: State, e: Event) {
    && s.clock <= e.at
    && match e.act
       case SetMember(_) => true
       case Invalidate => true
       case Get(c) => c !in s.calls
       case Query(c) => c in s.calls && s.calls[c].Missed?
       case Store(c) => c in s.calls && s.calls[c].Answered?
  }

  function Next(s: State, e: Event): State
    requires Enabled(s, e)
  {
    var s' := s.(clock := e.at);
    match e.act
    case SetMember(member) => s'.(member := member)
    case Invalidate => s'.(cache := None)
    case Get(c) => if Live(s.cache, e.at) then s' else s'.(calls := s.calls[c := Missed])
    case Query(c) => s'.(calls := s.calls[c := Answered(s.member, e.at)])
    case Store(c) =>
      var granted := s.calls[c].granted;
      s'.(cache := Some(Cached(granted, e.at + Ttl(granted))), calls := s.calls - {c})
  }

  /** The answer a step gives to its caller, if it ends a check. */
  function Response(s: State, e: Event): Option<bool>
    requires Enabled(s, e)
  {
    if e.act.Get? && Live(s.cache, e.at) then Some(s.cache.value.granted)
    else if e.act.Store? then Some(s.calls[e.act.c].granted)
    else None
  }

  ghost predicate CanRun(s: State, es: seq<Event>)
    decreases |es|, 0
  {
    es == [] || (CanRun(s, es[..|es| - 1]) && Enabled(Run(s, es[..|es| - 1]), es[|es| - 1]))
  }

  ghost function Run(s: State, es: seq<Event>): State
    requires CanRun(s, es)
    decreases |es|, 1
  {
    if es == [] then s else Next(Run(s, es[..|es| - 1]), es[|es| - 1])
  }

  lemma {:induction false} RunPrefix(s: State, es: seq<Event>, i: nat)
    requires CanRun(s, es) && i <= |es|
    ensures CanRun(s, es[..i])
    decreases |es|
  {
    if i < |es| {
      assert es[..|es| - 1][..i] == es[..i];
      RunPrefix(s, es[..|es| - 1], i);
    } else {
      assert es[..i] == es;
    }
  }

  // ---- Bounded staleness ---------------------------------------------------------------------------------

  /** A query of the run saw the value `v` in the database at time `t`. */
  ghost predicate Observed(s: State, es: seq<Event>, v: bool, t: int)
    requires CanRun(s, es)
  {
    exists i :: 0 <= i < |es| && ObservedBy(s, es, v, t, i)
  }

  ghost predicate ObservedBy(s: State, es: seq<Event>, v: bool, t: int, i: nat)
    requires CanRun(s, es) && i < |es|
  {
    es[i].act.Query? && es[i].at == t && CanRun(s, es[..i]) && Run(s, es[..i]).member == v
  }

  /** No check takes longer than `delay` between reading the row and writing the cache. */
  ghost predicate Prompt(s: State, es: seq<Event>, delay: int)
    requires CanRun(s, es)
    decreases |es|
  {
    es != [] ==>
      var init, e := es[..|es| - 1], es[|es| - 1];
      && Prompt(s, init, delay)
      && (e.act.Store? ==> e.at - Run(s, init).calls[e.act.c].at <= delay)
  }

  /** What the cache and the calls hold was seen in the database, and not too long ago. */
  ghost predicate Grounded(s: State, es: seq<Event>, delay: int)
    requires CanRun(s, es)
  {
    var now := Run(s, es);
    && (now.cache.Some? ==>
          exists t :: Observed(s, es, now.cache.value.granted, t)
            && now.cache.value.expires - Ttl(now.cache.value.granted) - delay <= t <= now.clock)
    && (forall c :: c in now.calls && now.calls[c].Answered? ==>
          Observed(s, es, now.calls[c].granted, now.calls[c].at) && now.calls[c].at <= now.clock)
  }

  lemma ObservedGrows(s: State, es: seq<Event>, v: bool, t: int)
    requires es != [] && CanRun(s, es) && Observed(s, es[..|es| - 1], v, t)
    ensures Observed(s, es, v, t)
  {
    var init := es[..|es| - 1];
    var i :| 0 <= i < |init| && ObservedBy(s, init, v, t, i);
    assert init[..i] == es[..i];
    assert ObservedBy(s, es, v, t, i);
  }

  lemma {:induction false} RunIsGrounded(s: State, es: seq<Event>, delay: int)
    requires s.cache.None? && s.calls == map[] && delay >= 0
    requires CanRun(s, es) && Prompt(s, es, delay)
    ensures Grounded(s, es, delay)
    decreases |es|
  {
    if es != [] {
      var init, e := es[..|es| - 1], es[|es| - 1];
      RunIsGrounded(s, init, delay);
      var before, now := Run(s, init), Run(s, es);
      forall v, t | Observed(s, init, v, t)
        ensures Observed(s, es, v, t)
      {
        ObservedGrows(s, es, v, t);
      }
      if e.act.Query? {
        assert ObservedBy(s, es, before.member, e.at, |init|);
      }
      if e.act.Store? {
        var p := before.calls[e.act.c];
        assert Observed(s, es, p.granted, p.at);
        assert now.cache.value.expires - Ttl(p.granted) - delay <= p.at <= now.clock;
      } else if now.cache.Some? {
        var t :| Observed(s, init, before.cache.value.granted, t)
          && before.cache.value.expires - Ttl(before.cache.value.granted) - delay <= t <= before.clock;
        assert Observed(s, es, now.cache.value.granted, t);
      }
    }
  }

  /**
   * Bounded staleness under any membership changes: an answer given at time t was in the database at some
   * instant in (t - ttl - delay, t], where `delay` bounds how long a check sits between its query and its SET.
   * With atomic checks (delay 0) a grant is at most 300 seconds old and a denial at most 30.
   */
  lemma BoundedStaleness(s: State, es: seq<Event>, e: Event, delay: int)
    requires s.cache.None? && s.calls == map[] && delay >= 0
    requires CanRun(s, es) && Enabled(Run(s, es), e) && Response(Run(s, es), e).Some?
    requires CanRun(s, es + [e]) && Prompt(s, es + [e], delay)
    ensures var v := Response(Run(s, es), e).value;
            exists t :: Observed(s, es, v, t) && e.at - (if v then 300 else 30) - delay < t <= e.at
  {
    assert (es + [e])[..|es|] == es;
    RunIsGrounded(s, es, delay);
    var now := Run(s, es);
    if e.act.Store? {
      var p := now.calls[e.act.c];
      assert Observed(s, es, p.granted, p.at);
      assert e.at - Ttl(p.granted) - delay < p.at <= e.at;
    }
  }

  /** A check that reads `v` and sits on it for `delay` seconds, while the row changes at once. */
  function SlowCheck(v: bool, delay: nat): seq<Event> {
    [Event(0, Get(1)), Event(0, Query(1)), Event(0, SetMember(!v)), Event(delay, Store(1))]
  }

  lemma SlowCheckSteps(v: bool, delay: nat)
    ensures var s, es := State(0, v, None, map[]), SlowCheck(v, delay);
            && CanRun(s, es[..0]) && CanRun(s, es[..1]) && CanRun(s, es[..2]) && CanRun(s, es[..3]) && CanRun(s, es[..4])
            && Run(s, es[..3]) == State(0, !v, None, map[1 := Answered(v, 0)])
            && Run(s, es[..4]) == State(delay, !v, Some(Cached(v, delay + Ttl(v))), map[])
  {
    var s, es := State(0, v, None, map[]), SlowCheck(v, delay);
    var none: map<Call, Progress> := map[];
    RunSnoc(s, es, 0);
    RunSnoc(s, es, 1);
    UpdateTwice(none, 1, Missed, Answered(v, 0));
    assert Run(s, es[..2]) == State(0, v, None, none[1 := Answered(v, 0)]);
    RunSnoc(s, es, 2);
    RunSnoc(s, es, 3);
    UpdateThenRemove(none, 1, Answered(v, 0));
  }

  lemma SlowCheckRuns(v: bool, delay: nat)
    ensures var s, es := State(0, v, None, map[]), SlowCheck(v, delay);
            && CanRun(s, es) && Prompt(s, es, delay)
            && Run(s, es) == State(delay, !v, Some(Cached(v, delay + Ttl(v))), map[])
  {
    var s, es := State(0, v, None, map[]), SlowCheck(v, delay);
    SlowCheckSteps(v, delay);
    PromptSnoc(s, es, 0, delay);
    PromptSnoc(s, es, 1, delay);
    PromptSnoc(s, es, 2, delay);
    PromptSnoc(s, es, 3, delay);
    assert es[..4] == es;
  }

  lemma PromptSnoc(s: State, es: seq<Event>, i: nat, delay: int)
    requires i < |es| && CanRun(s, es[..i]) && CanRun(s, es[..i + 1]) && Prompt(s, es[..i], delay)
    requires es[i].act.Store? ==> es[i].act.c in Run(s, es[..i]).calls && Run(s, es[..i]).calls[es[i].act.c].Answered?
                                  && es[i].at - Run(s, es[..i]).calls[es[i].act.c].at <= delay
    ensures Prompt(s, es[..i + 1], delay)
  {
    assert es[..i + 1][..i] == es[..i];
  }

  lemma OnlyOneQuery(v: bool, delay: nat, w: bool, t: int)
    requires CanRun(State(0, v, None, map[]), SlowCheck(v, delay))
    requires Observed(State(0, v, None, map[]), SlowCheck(v, delay), w, t)
    ensures t == 0
  {
    var s, es := State(0, v, None, map[]), SlowCheck(v, delay);
    var i :| 0 <= i < |es| && ObservedBy(s, es, w, t, i);
    assert i == 1;
  }

  /**
   * The bound is met, for every delay, by grants and by denials: an answer can be given ttl + delay - 1 seconds after
   * it was last true. So with any delay at all a grant can be older than 300 seconds, and without a bound on the
   * delay there is none on the age.
   */
  lemma StalenessIsMet(v: bool, delay: nat)
    ensures var s, es := State(0, v, None, map[]), SlowCheck(v, delay);
            var e := Event((if v then 300 else 30) + delay - 1, Get(2));
            && CanRun(s, es) && Prompt(s, es, delay)
            && Enabled(Run(s, es), e) && Response(Run(s, es), e) == Some(v) && Run(s, es).member != v
            && forall t :: Observed(s, es, v, t) ==> t == e.at - Ttl(v) - delay + 1
  {
    var s, es := State(0, v, None, map[]), SlowCheck(v, delay);
    SlowCheckRuns(v, delay);
    forall t | Observed(s, es, v, t)
      ensures t == 0
    {
      OnlyOneQuery(v, delay, v, t);
    }
  }

  // ---- After a change of membership ----------------------------------------------------------------------

  /** Something is left that can still answer `v`: a live entry, or a check that read the row while it said so. */
  ghost predicate CanStill(s: State, v: bool) {
    (Live(s.cache, s.clock) && s.cache.value.granted == v) || exists c :: Holds(s, c, v)
  }

  ghost predicate Holds(s: State, c: Call, v: bool) {
    c in s.calls && s.calls[c].Answered? && s.calls[c].granted == v
  }

  ghost predicate NoChangeTo(es: seq<Event>, v: bool) {
    forall e :: e in es ==> e.act != SetMember(v)
  }

  /** Some step of the run answers `v`. */
  ghost predicate Answers(s: State, es: seq<Event>, v: bool)
    requires CanRun(s, es)
  {
    exists i :: 0 <= i < |es| && AnswersAt(s, es, i, v)
  }

  ghost predicate AnswersAt(s: State, es: seq<Event>, i: nat, v: bool)
    requires CanRun(s, es) && i < |es|
  {
    CanRun(s, es[..i]) && Enabled(Run(s, es[..i]), es[i]) && Response(Run(s, es[..i]), es[i]) == Some(v)
  }

  lemma {:induction false} StaysSilent(s: State, es: seq<Event>, v: bool)
    requires s.member != v && !CanStill(s, v) && CanRun(s, es) && NoChangeTo(es, v)
    ensures Run(s, es).member != v && !CanStill(Run(s, es), v) && !Answers(s, es, v)
    decreases |es|
  {
    if es != [] {
      var init, e := es[..|es| - 1], es[|es| - 1];
      assert forall x :: x in init ==> x in es;
      assert e in es;
      StaysSilent(s, init, v);
      StepStaysSilent(Run(s, init), e, v);
      forall i | 0 <= i < |es|
        ensures !AnswersAt(s, es, i, v)
      {
        if i < |init| {
          assert es[..i] == init[..i];
          RunPrefix(s, init, i);
          assert AnswersAt(s, es, i, v) == AnswersAt(s, init, i, v);
        }
      }
    }
  }

  lemma StepStaysSilent(s: State, e: Event, v: bool)
    requires s.member != v && !CanStill(s, v) && Enabled(s, e) && e.act != SetMember(v)
    ensures Next(s, e).member != v && !CanStill(Next(s, e), v) && Response(s, e) != Some(v)
  {
    assert forall c :: Holds(Next(s, e), c, v) ==> Holds(s, c, v);
    assert e.act.Store? ==> !Holds(s, e.act.c, v);
  }

  lemma StillAnswers(s: State, v: bool) returns (es: seq<Event>)
    requires CanStill(s, v)
    ensures CanRun(s, es) && NoChangeTo(es, v) && Answers(s, es, v)
  {
    var e: Event;
    if Live(s.cache, s.clock) && s.cache.value.granted == v {
      SomeFresh(s.calls.Keys);
      var c :| c !in s.calls.Keys;
      e := Event(s.clock, Get(c));
    } else {
      var c :| Holds(s, c, v);
      e := Event(s.clock, Store(c));
    }
    es := [e];
    assert es[..0] == [] && es[..1] == es;
    RunSnoc(s, es, 0);
    assert AnswersAt(s, es, 0, v);
  }

  /**
   * Exactly when the old answer is never given again until the row changes back: no live entry says it, and no check
   * in flight has read it. A caller can look at both when the change commits.
   */
  lemma NeverAgainIff(s: State, v: bool)
    requires s.member != v
    ensures !CanStill(s, v) <==> forall es :: CanRun(s, es) && NoChangeTo(es, v) ==> !Answers(s, es, v)
  {
    if CanStill(s, v) {
      var es := StillAnswers(s, v);
    } else {
      forall es | CanRun(s, es) && NoChangeTo(es, v)
        ensures !Answers(s, es, v)
      {
        StaysSilent(s, es, v);
      }
    }
  }

  /** A user who is out is shut out until re-approved exactly when no grant is left. */
  lemma ShutOutIff(s: State)
    requires !s.member
    ensures !CanStill(s, true) <==> forall es :: CanRun(s, es) && NoChangeTo(es, true) ==> !Answers(s, es, true)
  {
    NeverAgainIff(s, true);
  }

  /** And a user who was approved is denied no more, until leaving, exactly when no denial is left. */
  lemma LetInIff(s: State)
    requires s.member
    ensures !CanStill(s, false) <==> forall es :: CanRun(s, es) && NoChangeTo(es, false) ==> !Answers(s, es, false)
  {
    NeverAgainIff(s, false);
  }

  /** The cache is invalidated and the row changed at once. */
  function Changed(s: State, at: int, v: bool): State
    requires s.clock <= at
  {
    Next(Next(s, Event(at, Invalidate)), Event(at, SetMember(v)))
  }

  /**
   * `leaveTrip`, or `approveJoin`, with nothing between its invalidation and its commit, and no check half way: the
   * old answer is not given again.
   */
  lemma UndisturbedChangeTakes(s: State, at: int, v: bool, es: seq<Event>)
    requires s.clock <= at && forall c :: c in s.calls ==> s.calls[c].Missed?
    requires CanRun(Changed(s, at, v), es) && NoChangeTo(es, !v)
    ensures !Answers(Changed(s, at, v), es, !v)
  {
    StaysSilent(Changed(s, at, v), es, !v);
  }

  /** A change whose invalidation is followed by a whole check before the commit. */
  function Overtaken(v: bool): seq<Event> {
    [Event(0, Invalidate), Event(0, Get(1)), Event(0, Query(1)), Event(0, Store(1)), Event(0, SetMember(!v)), Event(Ttl(v) - 1, Get(2))]
  }

  lemma OvertakenCaches(s: State, v: bool)
    requires s == State(0, v, None, map[])
    ensures CanRun(s, Overtaken(v)[..4]) && Run(s, Overtaken(v)[..4]) == State(0, v, Some(Cached(v, Ttl(v))), map[])
  {
    var es := Overtaken(v);
    var none: map<Call, Progress> := map[];
    RunSnoc(s, es, 0);
    RunSnoc(s, es, 1);
    UpdateTwice(none, 1, Missed, Answered(v, 0));
    RunSnoc(s, es, 2);
    assert Run(s, es[..3]) == State(0, v, None, none[1 := Answered(v, 0)]);
    UpdateThenRemove(none, 1, Answered(v, 0));
    RunSnoc(s, es, 3);
  }

  /**
   * But the invalidation runs inside the transaction, before its commit: a check in between reads the old row and
   * caches an answer that outlives the change. A user who left is granted access almost 300 seconds later, and one who
   * was approved is denied it almost 30 seconds later.
   */
  lemma ChangeCanBeOvertaken(v: bool)
    ensures var s, es := State(0, v, None, map[]), Overtaken(v);
            CanRun(s, es) && Run(s, es).member != v && Run(s, es).clock == Ttl(v) - 1 && AnswersAt(s, es, 5, v)
  {
    var s, es := State(0, v, None, map[]), Overtaken(v);
    OvertakenCaches(s, v);
    RunSnoc(s, es, 4);
    RunSnoc(s, es, 5);
    assert es[..6] == es;
  }

  /**
   * Leaving or being kicked from a community invalidates nothing. Then the user is shut out exactly when no live grant
   * was cached at that moment and no check had read the row before.
   */
  lemma KickShutsOutIff(s: State, at: int)
    requires s.clock <= at
    ensures var kicked := Next(s, Event(at, SetMember(false)));
            (forall es :: CanRun(kicked, es) && NoChangeTo(es, true) ==> !Answers(kicked, es, true)) <==>
            !(Live(s.cache, at) && s.cache.value.granted) && forall c :: !Holds(s, c, true)
  {
    var kicked := Next(s, Event(at, SetMember(false)));
    ShutOutIff(kicked);
    assert forall c :: Holds(kicked, c, true) == Holds(s, c, true);
  }

  /** One check, then the kick, then another check. */
  const KICKED := [Event(0, Get(1)), Event(0, Query(1)), Event(0, Store(1)), Event(0, SetMember(false)), Event(299, Get(2))]

  /** So a kicked member keeps access for almost 300 seconds, with no overlap at all. */
  lemma KickedKeepsAccess()
    ensures var s := State(0, true, None, map[]);
            CanRun(s, KICKED) && !Run(s, KICKED).member && AnswersAt(s, KICKED, 4, true)
  {
    var s := State(0, true, None, map[]);
    var none: map<Call, Progress> := map[];
    RunSnoc(s, KICKED, 0);
    RunSnoc(s, KICKED, 1);
    UpdateTwice(none, 1, Missed, Answered(true, 0));
    UpdateThenRemove(none, 1, Answered(true, 0));
    RunSnoc(s, KICKED, 2);
    assert Run(s, KICKED[..3]) == State(0, true, Some(Cached(true, 300)), none);
    RunSnoc(s, KICKED, 3);
    RunSnoc(s, KICKED, 4);
    assert KICKED[..5] == KICKED && KICKED[..0] == [];
  }

  /** The position of the last change that took the user out, with no return after it. */
  ghost predicate OutSince(es: seq<Event>, k: nat) {
    k < |es| && es[k].act == SetMember(false) && forall i :: k < i < |es| ==> es[i].act != SetMember(true)
  }

  lemma {:induction false} StaysOut(s: State, es: seq<Event>, k: nat)
    requires CanRun(s, es) && OutSince(es, k)
    ensures !Run(s, es).member && es[k].at <= Run(s, es).clock
    decreases |es|
  {
    if k < |es| - 1 {
      StaysOut(s, es[..|es| - 1], k);
    }
  }

  lemma {:induction false} ClockBound(s: State, es: seq<Event>, i: nat)
    requires CanRun(s, es) && i < |es|
    ensures es[i].at <= Run(s, es).clock
    decreases |es|
  {
    if i < |es| - 1 {
      ClockBound(s, es[..|es| - 1], i);
    }
  }

  lemma SeenOnlyBefore(s: State, es: seq<Event>, k: nat, t: int)
    requires CanRun(s, es) && OutSince(es, k) && Observed(s, es, true, t)
    ensures t <= es[k].at
  {
    var i :| 0 <= i < |es| && ObservedBy(s, es, true, t, i);
    if i > k {
      StaysOut(s, es[..i], k);
    } else if i < k {
      RunPrefix(s, es, k + 1);
      assert es[..k + 1][..k] == es[..k];
      ClockBound(s, es[..k], i);
      assert es[..k][i] == es[i] && es[..k + 1][k] == es[k];
    }
  }

  /** However the user left, and however the cache is used, access ends within 300 seconds and the delay of a check. */
  lemma NoGrantMuchLater(s: State, es: seq<Event>, e: Event, delay: int, k: nat)
    requires s.cache.None? && s.calls == map[] && delay >= 0
    requires CanRun(s, es) && Enabled(Run(s, es), e) && CanRun(s, es + [e]) && Prompt(s, es + [e], delay)
    requires OutSince(es, k) && Response(Run(s, es), e) == Some(true)
    ensures e.at < es[k].at + 300 + delay
  {
    BoundedStaleness(s, es, e, delay);
    var t :| Observed(s, es, true, t) && e.at - GRANT_TTL - delay < t <= e.at;
    SeenOnlyBefore(s, es, k, t);
  }

  lemma RunSnoc(s: State, es: seq<Event>, i: nat)
    requires i < |es| && CanRun(s, es[..i]) && Enabled(Run(s, es[..i]), es[i])
    ensures CanRun(s, es[..i + 1]) && Run(s, es[..i + 1]) == Next(Run(s, es[..i]), es[i])
  {
    assert es[..i + 1][..i] == es[..i];
  }

  // ---- The service ---------------------------------------------------------------------------------------

  /** One check on its own: the three steps in a row, at one instant. */
  function CheckOnce(cache: Option<Cached>, now: int, member: bool): (bool, Option<Cached>) {
    if Live(cache, now) then (cache.value.granted, cache)
    else (member, Some(Cached(member, now + Ttl(member))))
  }

  lemma CheckOnceIsThreeSteps(s: State, now: int, c: Call)
    requires s.clock <= now && c !in s.calls && !Live(s.cache, now)
    ensures var s1 := Next(s, Event(now, Get(c)));
            var s2 := Next(s1, Event(now, Query(c)));
            var s3 := Next(s2, Event(now, Store(c)));
            && Response(s2, Event(now, Store(c))) == Some(CheckOnce(s.cache, now, s.member).0)
            && s3 == s.(clock := now, cache := CheckOnce(s.cache, now, s.member).1)
  {
  }

  datatype RoomType = Known(kind: RoomKind) | Unknown

  /** The membership tables: approved trip participants and active community members, as `RoomMembers` reads them. */
  type Memberships = set<(UserId, Room)>

  class RoomAccess {
    var cache: map<(UserId, Room), Cached>

    constructor ()
      ensures cache == map[]
    {
      cache := map[];
    }

    function Entry(userId: UserId, room: Room): Option<Cached>
      reads this
    {
      if (userId, room) in cache then Some(cache[(userId, room)]) else None
    }

    /** `members` is what the two tables say at this moment. */
    method CheckRoomAccess(userId: UserId, roomType: RoomType, roomId: nat, now: int, members: Memberships) returns (hasAccess: bool)
      modifies this
      ensures roomType.Unknown? ==> !hasAccess && cache == old(cache)
      ensures roomType.Known? ==>
                var room := Room(roomType.kind, roomId);
                && (hasAccess, Entry(userId, room)) == CheckOnce(old(Entry(userId, room)), now, (userId, room) in members)
                && cache - {(userId, room)} == old(cache) - {(userId, room)}
      ensures roomType.Known? ==>
                var key := (userId, Room(roomType.kind, roomId));
                var known := key in old(cache) && now < old(cache)[key].expires;
                && hasAccess == (if known then old(cache)[key].granted else key in members)
                && cache == (if known then old(cache) else old(cache)[key := Cached(hasAccess, now + if hasAccess then 300 else 30)])
    {
      if roomType.Unknown? {
        return false;
      }
      var key := (userId, Room(roomType.kind, roomId));
      if key in cache && now < cache[key].expires {
        return cache[key].granted;
      }
      hasAccess := key in members;
      var ttl := if hasAccess then GRANT_TTL else DENY_TTL;
      cache := cache[key := Cached(hasAccess, now + ttl)];
    }

    method InvalidateRoomAccessCache(userId: UserId, room: Room)
      modifies this
      ensures Entry(userId, room) == None && cache == old(cache) - {(userId, room)}
    {
      cache := cache - {(userId, room)};
    }
  }
}
