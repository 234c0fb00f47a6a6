/**
 * How many guesses a code and a window of time allow, when at most `k` calls of a phone are in flight at once. Two
 * guesses are counted without a lock, and each call in flight may have compared before the lock comes. The count can
 * be lost: to the DEL of a call that was in flight when the code was stored, or to an expiry of the attempts key
 * before its code, which TTL rounding brings about once and an EXPIRE by the TTL of an older code at any time.
 */
module OtpBounds {
  import opened Common
  import opened Otp
  import opened OtpBudget
  import opened OtpTimes
  import opened Windows

  // ---- The wrong guesses that a code can still take ------------------------------------------------------

  function AttemptCount(k: Keys): nat {
    if k.attempts.Some? then k.attempts.value.count else 0
  }

  /** Two to be counted low and one for each call, less those made; before the first, all of them. */
  function Room(s: State, k: nat): int {
    if !CodeAlive(s.keys, s.clock) then 0
    else if Tally(s.wrong, Current(s)) == 0 then 2 + k
    else 2 - Min(2, AttemptCount(s.keys)) + k - |Holding(s, Current(s))|
  }

  function GuessView(s: State, k: nat): View {
    View(s.clock, s.issued, s.wrong, s.lost, Room(s, k))
  }

  lemma RoomNatural(s: State, k: nat)
    requires |s.calls| <= k
    ensures Room(s, k) >= 0
  {
    InFlightBound(s, Holding(s, Current(s)));
  }

  lemma CompareTakesRoom(s: State, e: Event, k: nat)
    requires Enabled(s, e) && ComparesWrong(s, e) && |s.calls| <= k
    ensures Room(Next(s, e), k) + 1 <= Room(s, k)
  {
    var s', c := Next(s, e), e.act.call;
    assert Holding(s', Current(s)) == Holding(s, Current(s)) + {c};
    assert c !in Holding(s, Current(s));
    TallySnoc(s.wrong, Mark(e.at, Current(s)), Current(s));
  }

  lemma CountKeepsRoom(s: State, e: Event, k: nat)
    requires Enabled(s, e) && Counts(s, e) && CountsFromOne(s.keys)
    ensures Room(Next(s, e), k) <= Room(s, k) + (if Loses(s, e) then 2 else 0) || !CodeAlive(s.keys, e.at)
  {
    var s', c := Next(s, e), e.act.call;
    var n := Incremented(s.keys.attempts, e.at).count;
    if n >= MAX_OTP_ATTEMPTS {
      assert Holding(s', Current(s)) == Holding(s, Current(s));
    } else {
      assert Holding(s', Current(s)) == Holding(s, Current(s)) - {c};
    }
  }

  lemma DeleteKeepsRoom(s: State, e: Event, k: nat)
    requires Enabled(s, e) && Erases(s, e)
    ensures Room(Next(s, e), k) <= Room(s, k) + (if Loses(s, e) then 2 else 0) || !CodeAlive(s.keys, e.at)
  {
    assert Holding(Next(s, e), Current(s)) == Holding(s, Current(s));
  }

  lemma OthersKeepRoom(s: State, e: Event, k: nat)
    requires Enabled(s, e) && !ComparesWrong(s, e) && !Issues(s, e) && !Erases(s, e) && !Counts(s, e)
    ensures Room(Next(s, e), k) <= Room(s, k) || !CodeAlive(Next(s, e).keys, e.at)
  {
    var s' := Next(s, e);
    if CodeAlive(s'.keys, e.at) {
      HistoryAfter(s, e);
      assert Holding(s', Current(s)) == Holding(s, Current(s));
    }
  }

  lemma DeadKeepsRoom(s: State, e: Event, k: nat)
    requires Enabled(s, e) && !Issues(s, e) && !CodeAlive(Next(s, e).keys, e.at) && |s.calls| <= k
    ensures Room(Next(s, e), k) + One(ComparesWrong(s, e)) <= Room(s, k)
  {
    RoomNatural(s, k);
  }

  lemma RoomAfter(s: State, e: Event, k: nat)
    requires TimeInv(s) && Enabled(s, e) && !Issues(s, e) && |s.calls| <= k
    ensures Room(Next(s, e), k) + One(ComparesWrong(s, e)) <= Room(s, k) + if Loses(s, e) then 2 else 0
  {
    if !CodeAlive(Next(s, e).keys, e.at) {
      DeadKeepsRoom(s, e, k);
    } else if ComparesWrong(s, e) {
      CompareTakesRoom(s, e, k);
    } else if Erases(s, e) {
      DeleteKeepsRoom(s, e, k);
    } else if Counts(s, e) {
      CountKeepsRoom(s, e, k);
    } else {
      OthersKeepRoom(s, e, k);
    }
  }

  lemma StepPaysGuess(s: State, e: Event, k: nat)
    requires TimeInv(s) && Enabled(s, e) && |s.calls| <= k && |Next(s, e).calls| <= k
    ensures if Issues(s, e) then Starts(GuessView(s, k), GuessView(Next(s, e), k), 2 + k)
            else Pays(GuessView(s, k), GuessView(Next(s, e), k), ComparesWrong(s, e), Loses(s, e), 2)
  {
    HistoryAfter(s, e);
    RoomNatural(Next(s, e), k);
    if Issues(s, e) {
      TallyNone(s.wrong, |s.issued|);
    } else {
      RoomAfter(s, e, k);
    }
  }

  // ---- How often the count can still be lost -------------------------------------------------------------

  /** An attempts key with an expiry dies at most 499 ms before the code. */
  predicate NearlyOutlives(k: Keys) {
    k.code.Some? && k.attempts.Some? && k.attempts.value.expires.Some? ==>
      k.code.value.expires - ROUNDING_MS <= k.attempts.value.expires.value
  }

  predicate Outlives(k: Keys) {
    k.code.Some? && k.attempts.Some? && k.attempts.value.expires.Some? ==>
      k.code.value.expires <= k.attempts.value.expires.value
  }

  /** The code is in its last 499 ms, and the attempts key will not die before it. */
  predicate Settled(s: State) {
    s.keys.code.Some? && s.keys.code.value.expires - ROUNDING_MS <= s.clock && Outlives(s.keys)
  }

  /** The calls that can make the count of the living code be lost, an early expiry, and the rounding at the end. */
  function Threats(s: State): nat {
    |LateDels(s)| + |LateExpires(s)| + One(!NearlyOutlives(s.keys)) + One(!Settled(s))
  }

  function Losses(s: State, k: nat): nat {
    if !CodeAlive(s.keys, s.clock) then 0
    else if Tally(s.wrong, Current(s)) == 0 then k + 1
    else Threats(s)
  }

  /** Those of them by DEL. */
  function Deletions(s: State, k: nat): nat
    requires k >= 1
  {
    if !CodeAlive(s.keys, s.clock) then 0
    else if Tally(s.wrong, Current(s)) == 0 then k - 1
    else |LateDels(s)|
  }

  function LossView(s: State, k: nat): View {
    View(s.clock, s.issued, s.lost, s.expired, Losses(s, k))
  }

  function DeletionView(s: State, k: nat): View
    requires k >= 1
  {
    View(s.clock, s.issued, s.lost, s.expired, Deletions(s, k))
  }

  ghost predicate CodeKept(s: State, e: Event)
    requires Enabled(s, e)
  {
    var s' := Next(s, e);
    s'.issued == s.issued && CodeAlive(s.keys, e.at) && s'.keys.code == s.keys.code && s'.clock == e.at
  }

  lemma EraseUsesThreat(s: State, e: Event)
    requires TimeInv(s) && Enabled(s, e) && Erases(s, e) && CodeKept(s, e)
    ensures Threats(Next(s, e)) + 1 <= Threats(s) && |LateDels(Next(s, e))| + 1 == |LateDels(s)|
  {
    var s', c := Next(s, e), e.act.call;
    assert LateDels(s') == LateDels(s) - {c} && c in LateDels(s);
    assert LateExpires(s') == LateExpires(s);
  }

  lemma CountUsesThreat(s: State, e: Event)
    requires TimeInv(s) && Enabled(s, e) && Counts(s, e) && CodeKept(s, e)
    ensures Threats(Next(s, e)) + One(Expires(s, e)) <= Threats(s) && |LateDels(Next(s, e))| == |LateDels(s)|
  {
    var s' := Next(s, e);
    assert LateDels(s') == LateDels(s);
    assert LateExpires(s') == LateExpires(s);
  }

  lemma ExpireUsesThreat(s: State, e: Event)
    requires TimeInv(s) && Enabled(s, e) && Goes(s, e) && s.calls[e.act.call].Timed? && CodeKept(s, e)
    ensures Threats(Next(s, e)) <= Threats(s) && |LateDels(Next(s, e))| == |LateDels(s)|
  {
    var s', c := Next(s, e), e.act.call;
    assert Timely(s, s.calls[c]);
    assert LateDels(s') == LateDels(s);
    if s.calls[c].code == Current(s) {
      assert LateExpires(s') == LateExpires(s);
    } else {
      assert LateExpires(s') == LateExpires(s) - {c} && c in LateExpires(s);
    }
  }

  lemma OthersUseNoThreat(s: State, e: Event)
    requires Enabled(s, e) && CodeKept(s, e) && !Erases(s, e) && !Counts(s, e)
    requires Goes(s, e) ==> !s.calls[e.act.call].Timed?
    ensures Threats(Next(s, e)) <= Threats(s) && |LateDels(Next(s, e))| == |LateDels(s)|
  {
    OthersKeepLate(s, e);
  }

  lemma OthersKeepLate(s: State, e: Event)
    requires Enabled(s, e) && CodeKept(s, e) && !Erases(s, e) && (Goes(s, e) ==> !s.calls[e.act.call].Timed?)
    ensures LateDels(Next(s, e)) == LateDels(s) && LateExpires(Next(s, e)) == LateExpires(s)
  {
    forall id
      ensures id in LateDels(Next(s, e)) <==> id in LateDels(s)
      ensures id in LateExpires(Next(s, e)) <==> id in LateExpires(s)
    {
      if id != e.act.call {
        OtherCallsStay(s, e, id);
      }
    }
  }

  /** With one call comparing, at most the others threaten the count. */
  lemma FirstCompare(s: State, c: CallId, k: nat)
    requires c in s.calls && s.calls[c].Wrong? && |s.calls| <= k
    ensures Threats(s) <= k + 1 && |LateDels(s)| <= k - 1
  {
    DisjointBound(s, LateDels(s), LateExpires(s), {c});
  }

  lemma LossesAfter(s: State, e: Event, k: nat)
    requires TimeInv(s) && Enabled(s, e) && !Issues(s, e) && 1 <= k && |Next(s, e).calls| <= k
    ensures Losses(Next(s, e), k) + One(Loses(s, e)) <= Losses(s, k)
    ensures Deletions(Next(s, e), k) + One(Loses(s, e)) <= Deletions(s, k) + One(Expires(s, e))
  {
    var s' := Next(s, e);
    HistoryAfter(s, e);
    if CodeAlive(s'.keys, e.at) {
      CodeStays(s, e);
      if ComparesWrong(s, e) && Tally(s.wrong, Current(s)) == 0 {
        FirstCompare(s', e.act.call, k);
      } else {
        TallyNoted(s.wrong, ComparesWrong(s, e), e.at, Current(s), Current(s));
        ThreatsAfter(s, e);
        LossesFollow(s, s', k, Loses(s, e), Expires(s, e));
      }
    }
  }

  lemma LossesFollow(s: State, t: State, k: nat, loses: bool, expires: bool)
    requires 1 <= k && CodeAlive(s.keys, s.clock) && CodeAlive(t.keys, t.clock) && Current(t) == Current(s)
    requires Tally(t.wrong, Current(s)) == 0 <==> Tally(s.wrong, Current(s)) == 0
    requires Tally(s.wrong, Current(s)) == 0 ==> !loses
    requires Threats(t) + One(loses) <= Threats(s) && |LateDels(t)| + One(loses) <= |LateDels(s)| + One(expires)
    ensures Losses(t, k) + One(loses) <= Losses(s, k)
    ensures Deletions(t, k) + One(loses) <= Deletions(s, k) + One(expires)
  {
  }

  lemma ThreatsAfter(s: State, e: Event)
    requires TimeInv(s) && Enabled(s, e) && CodeKept(s, e)
    ensures Threats(Next(s, e)) + One(Loses(s, e)) <= Threats(s)
    ensures |LateDels(Next(s, e))| + One(Loses(s, e)) <= |LateDels(s)| + One(Expires(s, e))
  {
    if Erases(s, e) {
      EraseUsesThreat(s, e);
    } else if Counts(s, e) {
      CountUsesThreat(s, e);
    } else if Goes(s, e) && s.calls[e.act.call].Timed? {
      ExpireUsesThreat(s, e);
    } else {
      OthersUseNoThreat(s, e);
    }
  }

  lemma StepPaysLoss(s: State, e: Event, k: nat)
    requires TimeInv(s) && Enabled(s, e) && 1 <= k && |s.calls| <= k && |Next(s, e).calls| <= k
    ensures if Issues(s, e) then Starts(LossView(s, k), LossView(Next(s, e), k), k + 1)
            else Pays(LossView(s, k), LossView(Next(s, e), k), Loses(s, e), Expires(s, e), 0)
    ensures if Issues(s, e) then Starts(DeletionView(s, k), DeletionView(Next(s, e), k), k - 1)
            else Pays(DeletionView(s, k), DeletionView(Next(s, e), k), Loses(s, e), Expires(s, e), 1)
  {
    HistoryAfter(s, e);
    if Issues(s, e) {
      TallyNone(s.wrong, |s.issued|);
    } else {
      LossesAfter(s, e, k);
    }
  }

  // ---- Passing the comparison ----------------------------------------------------------------------------

  /** While the code lives, everyone who passed is still in flight. */
  ghost predicate PassBudget(s: State, k: nat) {
    && (forall c: nat :: Tally(s.matched, c) <= k)
    && (CodeAlive(s.keys, s.clock) ==> Tally(s.matched, Current(s)) <= |Passing(s, Current(s))|)
  }

  lemma MorePassing(s: State, e: Event)
    requires Enabled(s, e) && Goes(s, e) && s.calls[e.act.call].Unlocked? && Next(s, e).matched != s.matched
    ensures |Passing(Next(s, e), Current(s))| == |Passing(s, Current(s))| + 1 && CodeAlive(s.keys, e.at)
    ensures Next(s, e).matched == s.matched + [Mark(e.at, Current(s))] && Current(Next(s, e)) == Current(s)
  {
    assert Passing(Next(s, e), Current(s)) == Passing(s, Current(s)) + {e.act.call};
    assert e.act.call !in Passing(s, Current(s));
  }

  lemma ReadKeepsPasses(s: State, e: Event, k: nat)
    requires PassBudget(s, k) && Enabled(s, e) && Goes(s, e) && s.calls[e.act.call].Unlocked? && |Next(s, e).calls| <= k
    ensures PassBudget(Next(s, e), k)
  {
    var s', c := Next(s, e), Current(s);
    if s'.matched != s.matched {
      MorePassing(s, e);
      InFlightBound(s', Passing(s', c));
      forall d: nat
        ensures Tally(s'.matched, d) == Tally(s.matched, d) + if c == d then 1 else 0
      {
        TallySnoc(s.matched, Mark(e.at, c), d);
      }
    } else if CodeAlive(s.keys, e.at) {
      assert Passing(s', c) == Passing(s, c);
    }
  }

  lemma OthersKeepPasses(s: State, e: Event, k: nat)
    requires TimeInv(s) && PassBudget(s, k) && Enabled(s, e)
    requires Goes(s, e) ==> !s.calls[e.act.call].Unlocked?
    ensures PassBudget(Next(s, e), k)
  {
    var s' := Next(s, e);
    CodeStays(s, e);
    assert s'.matched == s.matched;
    if s'.issued != s.issued {
      TallyNone(s.matched, |s.issued|);
    } else if CodeAlive(s'.keys, e.at) {
      OthersPassOn(s, e);
    }
  }

  lemma OthersPassOn(s: State, e: Event)
    requires Enabled(s, e) && CodeKept(s, e) && (Goes(s, e) ==> !s.calls[e.act.call].Unlocked?)
    ensures Passing(Next(s, e), Current(s)) == Passing(s, Current(s))
  {
    forall id
      ensures id in Passing(Next(s, e), Current(s)) <==> id in Passing(s, Current(s))
    {
      if id != e.act.call {
        OtherCallsStay(s, e, id);
      }
    }
  }

  lemma StepKeepsPasses(s: State, e: Event, k: nat)
    requires TimeInv(s) && PassBudget(s, k) && Enabled(s, e) && |Next(s, e).calls| <= k
    ensures PassBudget(Next(s, e), k)
  {
    if Goes(s, e) && s.calls[e.act.call].Unlocked? {
      ReadKeepsPasses(s, e, k);
    } else {
      OthersKeepPasses(s, e, k);
    }
  }

  // ---- Runs ----------------------------------------------------------------------------------------------

  ghost predicate Inv(s: State, k: nat)
    requires k >= 1
  {
    && TimeInv(s) && IssuesApart(s, k) && PassBudget(s, k)
    && Sound(GuessView(s, k), 2 + k, 2) && Sound(LossView(s, k), k + 1, 0) && Sound(DeletionView(s, k), k - 1, 1)
  }

  lemma StepKeepsGuesses(s: State, e: Event, k: nat)
    requires TimeInv(s) && Sound(GuessView(s, k), 2 + k, 2) && Enabled(s, e) && |s.calls| <= k && |Next(s, e).calls| <= k
    ensures Sound(GuessView(Next(s, e), k), 2 + k, 2)
  {
    StepPaysGuess(s, e, k);
    if Issues(s, e) {
      StartsSound(GuessView(s, k), GuessView(Next(s, e), k), 2 + k, 2);
    } else {
      PaysSound(GuessView(s, k), GuessView(Next(s, e), k), ComparesWrong(s, e), Loses(s, e), 2 + k, 2);
    }
  }

  lemma StepKeepsLosses(s: State, e: Event, k: nat)
    requires TimeInv(s) && Enabled(s, e) && 1 <= k && |s.calls| <= k && |Next(s, e).calls| <= k
    requires Sound(LossView(s, k), k + 1, 0) && Sound(DeletionView(s, k), k - 1, 1)
    ensures Sound(LossView(Next(s, e), k), k + 1, 0) && Sound(DeletionView(Next(s, e), k), k - 1, 1)
  {
    StepPaysLoss(s, e, k);
    var s' := Next(s, e);
    if Issues(s, e) {
      StartsSound(LossView(s, k), LossView(s', k), k + 1, 0);
      StartsSound(DeletionView(s, k), DeletionView(s', k), k - 1, 1);
    } else {
      PaysSound(LossView(s, k), LossView(s', k), Loses(s, e), Expires(s, e), k + 1, 0);
      PaysSound(DeletionView(s, k), DeletionView(s', k), Loses(s, e), Expires(s, e), k - 1, 1);
    }
  }

  lemma StepKeepsInv(s: State, e: Event, k: nat)
    requires 1 <= k && Inv(s, k) && Enabled(s, e) && |s.calls| <= k && |Next(s, e).calls| <= k
    ensures Inv(Next(s, e), k)
  {
    StepKeepsTimes(s, e);
    StepKeepsApart(s, e, k);
    StepKeepsPasses(s, e, k);
    StepKeepsGuesses(s, e, k);
    StepKeepsLosses(s, e, k);
  }

  lemma {:induction false} RunKeepsInv(es: seq<Event>, k: nat)
    requires 1 <= k && CanRun(START, es) && AtMost(START, es, k)
    ensures Inv(Run(START, es), k)
    decreases |es|
  {
    if es != [] {
      RunKeepsInv(es[..|es| - 1], k);
      StepKeepsInv(Run(START, es[..|es| - 1]), es[|es| - 1], k);
    }
  }

  /**
   * Over every run with at most `k` calls in flight, a code meets at most 2 + k wrong guesses, and two more for each
   * time its count was lost; that is at most k + 1 times, and at most k - 1 times but for expiries. So without an
   * expiry it meets at most 3k. It passes the comparison at most `k` times.
   */
  lemma PerCode(es: seq<Event>, k: nat, c: nat)
    requires 1 <= k && CanRun(START, es) && AtMost(START, es, k)
    ensures var s := Run(START, es);
            && Tally(s.wrong, c) <= 2 + k + 2 * Tally(s.lost, c)
            && Tally(s.lost, c) <= k + 1
            && Tally(s.lost, c) <= k - 1 + Tally(s.expired, c)
            && Tally(s.wrong, c) <= 3 * k + 2 * Tally(s.expired, c)
            && Tally(s.matched, c) <= k
  {
    RunKeepsInv(es, k);
    var s := Run(START, es);
    assert Sound(GuessView(s, k), 2 + k, 2) && Sound(LossView(s, k), k + 1, 0) && Sound(DeletionView(s, k), k - 1, 1);
    WorthIs(2, Tally(s.lost, c));
    WorthIs(0, Tally(s.expired, c));
    WorthIs(1, Tally(s.expired, c));
  }

  // ---- For a window of time ------------------------------------------------------------------------------

  ghost predicate InWindows(s: State, k: nat, from: int, to: int) {
    Within(GuessView(s, k), 2 + k, 2, from, to) && Within(LossView(s, k), k + 1, 0, from, to)
  }

  lemma LossesFull(s: State, k: nat)
    requires 1 <= k && Inv(s, k)
    ensures Losses(s, k) <= k + 1
  {
    assert Sound(LossView(s, k), k + 1, 0);
    WorthIs(0, Tally(s.expired, Current(s)));
    assert Tally(s.lost, Current(s)) + Losses(s, k) <= k + 1;
  }

  lemma StepKeepsGuessWindow(s: State, e: Event, k: nat, from: int, to: int)
    requires TimeInv(s) && Enabled(s, e) && |s.calls| <= k && |Next(s, e).calls| <= k
    requires Within(GuessView(s, k), 2 + k, 2, from, to)
    ensures Within(GuessView(Next(s, e), k), 2 + k, 2, from, to)
  {
    StepPaysGuess(s, e, k);
    RoomFull(Next(s, e), k);
    if Issues(s, e) {
      StartsWithin(GuessView(s, k), GuessView(Next(s, e), k), 2 + k, 2, from, to);
    } else {
      PaysWithin(GuessView(s, k), GuessView(Next(s, e), k), ComparesWrong(s, e), Loses(s, e), 2 + k, 2, from, to);
    }
  }

  lemma StepKeepsLossWindow(s: State, e: Event, k: nat, from: int, to: int)
    requires TimeInv(s) && Enabled(s, e) && 1 <= k && |s.calls| <= k && |Next(s, e).calls| <= k && Losses(Next(s, e), k) <= k + 1
    requires Within(LossView(s, k), k + 1, 0, from, to)
    ensures Within(LossView(Next(s, e), k), k + 1, 0, from, to)
  {
    StepPaysLoss(s, e, k);
    if Issues(s, e) {
      StartsWithin(LossView(s, k), LossView(Next(s, e), k), k + 1, 0, from, to);
    } else {
      PaysWithin(LossView(s, k), LossView(Next(s, e), k), Loses(s, e), Expires(s, e), k + 1, 0, from, to);
    }
  }

  lemma RoomFull(s: State, k: nat)
    ensures Room(s, k) <= 2 + k
  {
  }

  lemma {:induction false} RunKeepsWindows(es: seq<Event>, k: nat, from: int, to: int)
    requires 1 <= k && CanRun(START, es) && AtMost(START, es, k)
    ensures InWindows(Run(START, es), k, from, to)
    decreases |es|
  {
    if es != [] {
      RunKeepsWindows(es[..|es| - 1], k, from, to);
      RunKeepsInv(es[..|es| - 1], k);
      RunKeepsInv(es, k);
      LossesFull(Run(START, es), k);
      StepKeepsGuessWindow(Run(START, es[..|es| - 1]), es[|es| - 1], k, from, to);
      StepKeepsLossWindow(Run(START, es[..|es| - 1]), es[|es| - 1], k, from, to);
    }
  }

  lemma IssuesIn(s: State, k: nat, from: int, to: int, m: nat)
    requires CodeTimed(s) && IssuesApart(s, k) && to <= from + m * COOLDOWN_MS
    ensures CountIn(s.issued, from, to) <= k * m
  {
    SpacedBoundsWidths(s.issued, k, COOLDOWN_MS, from, to, m);
  }

  lemma GuessesIn(s: State, k: nat, from: int, to: int, codes: nat)
    requires Within(GuessView(s, k), 2 + k, 2, from, to) && CountIn(s.issued, from, to) < codes
    ensures InWindow(s.wrong, from, to) <= (2 + k) * codes + 2 * InWindow(s.lost, from, to)
  {
    ForCodesMonotone(2 + k, CountIn(s.issued, from, to), codes - 1);
    ForCodesIs(2 + k, codes - 1, codes);
    WorthIs(2, InWindow(s.lost, from, to));
  }

  lemma LossesIn(s: State, k: nat, from: int, to: int, codes: nat)
    requires Within(LossView(s, k), k + 1, 0, from, to) && CountIn(s.issued, from, to) < codes
    ensures InWindow(s.lost, from, to) <= (k + 1) * codes
  {
    ForCodesMonotone(k + 1, CountIn(s.issued, from, to), codes - 1);
    ForCodesIs(k + 1, codes - 1, codes);
    WorthIs(0, InWindow(s.expired, from, to));
  }

  /** The code at hand, and `k` for each of `m` cooldowns. */
  function Codes(k: nat, m: nat): nat {
    if m == 0 then 1 else Codes(k, m - 1) + k
  }

  lemma {:induction false} CodesIs(k: nat, m: nat)
    ensures Codes(k, m) == 1 + k * m
  {
    if m > 0 {
      CodesIs(k, m - 1);
    }
  }

  lemma CodesIn(es: seq<Event>, k: nat, from: int, to: int, m: nat)
    requires 1 <= k && CanRun(START, es) && AtMost(START, es, k) && to <= from + m * COOLDOWN_MS
    ensures CountIn(Run(START, es).issued, from, to) < Codes(k, m)
  {
    RunKeepsInv(es, k);
    IssuesIn(Run(START, es), k, from, to, m);
    CodesIs(k, m);
  }

  lemma WindowBound(es: seq<Event>, k: nat, from: int, to: int, codes: nat)
    requires 1 <= k && CanRun(START, es) && AtMost(START, es, k) && CountIn(Run(START, es).issued, from, to) < codes
    ensures InWindow(Run(START, es).wrong, from, to) <= (2 + k) * codes + 2 * InWindow(Run(START, es).lost, from, to)
    ensures InWindow(Run(START, es).lost, from, to) <= (k + 1) * codes
  {
    RunKeepsWindows(es, k, from, to);
    GuessesIn(Run(START, es), k, from, to, codes);
    LossesIn(Run(START, es), k, from, to, codes);
  }

  /**
   * Over every run with at most `k` calls in flight, a window of `m` cooldowns (59.501 s each) sees at most 1 + km
   * codes. It holds at most 2 + k wrong guesses for each of them, and two for each loss of a count in the window; and
   * of those at most k + 1 for each code.
   */
  lemma GuessBound(es: seq<Event>, k: nat, from: int, to: int, m: nat)
    requires 1 <= k && CanRun(START, es) && AtMost(START, es, k) && to <= from + m * 59501
    ensures InWindow(Run(START, es).wrong, from, to) <= (2 + k) * Codes(k, m) + 2 * InWindow(Run(START, es).lost, from, to)
    ensures InWindow(Run(START, es).lost, from, to) <= (k + 1) * Codes(k, m)
  {
    CodesIn(es, k, from, to, m);
    WindowBound(es, k, from, to, Codes(k, m));
  }
}
