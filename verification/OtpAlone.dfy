/**
 * The calls of a phone when they do not overlap: the count of wrong guesses is then lost at most once for each code,
 * and only to TTL rounding, in the last 499 ms of the code.
 */
module OtpAlone {
  import opened Common
  import opened Otp
  import opened OtpBounds
  import opened OtpBudget
  import opened OtpTimes
  import opened Windows

  ghost predicate SomeStored(s: State) {
    exists id :: id in s.calls && s.calls[id].Stored?
  }

  /** The loss of a count comes at the end of its code's life. */
  ghost predicate LostLate(s: State, m: Mark) {
    && m.code < |s.issued| && s.issued[m.code] + REMEMBERED_MS <= m.at <= s.clock
    && (m.code + 1 < |s.issued| ==> m.at <= s.issued[m.code + 1])
  }

  ghost predicate LossesLate(s: State) {
    && (forall i :: 0 <= i < |s.lost| ==> LostLate(s, s.lost[i]))
    && (forall i, j :: 0 <= i < j < |s.lost| ==> s.lost[i].code < s.lost[j].code)
    && (s.lost != [] && s.lost[|s.lost| - 1].code == Current(s) && CodeAlive(s.keys, s.clock) ==> Settled(s))
  }

  /** The one call in flight is none that could spoil the count of the living code, but for a request just storing it. */
  ghost predicate Harmless(s: State) {
    CodeAlive(s.keys, s.clock) ==>
      && LateExpires(s) == {}
      && (if SomeStored(s) then Tally(s.wrong, Current(s)) == 0 else LateDels(s) == {} && NearlyOutlives(s.keys))
  }

  lemma OnlyCall(s: State, c: CallId, id: CallId)
    requires |s.calls| <= 1 && c in s.calls && id in s.calls
    ensures id == c
  {
    MapSize(s.calls);
    if id != c {
      InFlightBound(s, {id, c});
    }
  }

  ghost predicate Solo(s: State) {
    |s.calls| <= 1 && Harmless(s) && LossesLate(s)
  }

  lemma IssueStaysHarmless(s: State, e: Event)
    requires TimeInv(s) && Solo(s) && Enabled(s, e) && Issues(s, e)
    ensures Harmless(Next(s, e))
  {
    var s', c := Next(s, e), e.act.call;
    HistoryAfter(s, e);
    TallyNone(s.wrong, |s.issued|);
    assert s'.calls[c].Stored?;
    forall id | id in s'.calls
      ensures id == c
    {
      OnlyCall(s, c, id);
    }
    assert LateExpires(s') == {};
  }

  lemma EraseStaysHarmless(s: State, e: Event)
    requires TimeInv(s) && Solo(s) && Enabled(s, e) && Erases(s, e) && CodeKept(s, e)
    ensures Harmless(Next(s, e)) && !Loses(s, e)
  {
    var s', c := Next(s, e), e.act.call;
    assert c in LateDels(s);
    assert LateExpires(s') == {};
    forall id | id in s'.calls
      ensures id == c
    {
      OnlyCall(s, c, id);
    }
    assert LateDels(s') == {};
  }

  lemma ExpireStaysHarmless(s: State, e: Event)
    requires TimeInv(s) && Solo(s) && Enabled(s, e) && Goes(s, e) && s.calls[e.act.call].Timed? && CodeKept(s, e)
    ensures Harmless(Next(s, e))
  {
    var s', c := Next(s, e), e.act.call;
    assert c !in LateExpires(s);
    assert Timely(s, s.calls[c]);
    forall id | id in s'.calls
      ensures id == c
    {
      OnlyCall(s, c, id);
    }
    assert s'.calls == map[];
    if SomeStored(s) {
      var id :| id in s.calls && s.calls[id].Stored?;
      OnlyCall(s, c, id);
    }
  }

  lemma OthersStayHarmless(s: State, e: Event)
    requires TimeInv(s) && Solo(s) && Enabled(s, e) && CodeKept(s, e) && |Next(s, e).calls| <= 1
    requires !Erases(s, e) && (Goes(s, e) ==> !s.calls[e.act.call].Timed?)
    ensures Harmless(Next(s, e))
  {
    HistoryAfter(s, e);
    OthersKeepLate(s, e);
    OthersKeepAttempts(s, e);
    StoredStays(s, e);
  }

  lemma OthersKeepAttempts(s: State, e: Event)
    requires Enabled(s, e) && CodeKept(s, e) && !Erases(s, e) && (Goes(s, e) ==> !s.calls[e.act.call].Timed?)
    ensures NearlyOutlives(s.keys) ==> NearlyOutlives(Next(s, e).keys)
  {
  }

  lemma NothingNew(s: State, e: Event)
    requires Enabled(s, e) && e.act.call !in s.calls && e.act.call !in Next(s, e).calls
    ensures Next(s, e).calls == s.calls
  {
  }

  lemma StoredStays(s: State, e: Event)
    requires Enabled(s, e) && |s.calls| <= 1 && |Next(s, e).calls| <= 1 && !Issues(s, e) && !Erases(s, e)
    ensures SomeStored(Next(s, e)) <==> SomeStored(s)
    ensures SomeStored(s) ==> Next(s, e).calls == s.calls
  {
    var s', c := Next(s, e), e.act.call;
    if SomeStored(s) {
      var id :| id in s.calls && s.calls[id].Stored?;
      if c in s.calls {
        OnlyCall(s, c, id);
      } else if c in s'.calls {
        OtherCallsStay(s, e, id);
        OnlyCall(s', c, id);
      }
      NothingNew(s, e);
    }
  }

  lemma StepStaysHarmless(s: State, e: Event)
    requires TimeInv(s) && Solo(s) && Enabled(s, e) && |Next(s, e).calls| <= 1
    ensures Harmless(Next(s, e))
  {
    CodeStays(s, e);
    if Issues(s, e) {
      IssueStaysHarmless(s, e);
    } else if CodeAlive(Next(s, e).keys, e.at) {
      HistoryAfter(s, e);
      if Erases(s, e) {
        EraseStaysHarmless(s, e);
      } else if Goes(s, e) && s.calls[e.act.call].Timed? {
        ExpireStaysHarmless(s, e);
      } else {
        OthersStayHarmless(s, e);
      }
    }
  }

  /** The count can then be lost only in the last 499 ms of the code, to an attempts key that dies before it. */
  lemma LosesLate(s: State, e: Event)
    requires TimeInv(s) && Solo(s) && Enabled(s, e) && Loses(s, e)
    ensures Expires(s, e) && !Outlives(s.keys) && s.issued != [] && s.issued[Current(s)] + REMEMBERED_MS <= e.at
    ensures CodeKept(s, e) && Settled(Next(s, e))
  {
    assert Erases(s, e) ==> e.act.call in LateDels(s);
  }

  lemma StaysSettled(s: State, e: Event)
    requires TimeInv(s) && Settled(s) && Enabled(s, e) && CodeKept(s, e)
    ensures Settled(Next(s, e))
  {
    if Goes(s, e) {
      assert Timely(s, s.calls[e.act.call]);
    }
  }

  lemma LossesStayLate(s: State, e: Event)
    requires TimeInv(s) && Solo(s) && Enabled(s, e) && !Loses(s, e)
    ensures LossesLate(Next(s, e))
  {
    var s' := Next(s, e);
    HistoryAfter(s, e);
    CodeStays(s, e);
    forall i | 0 <= i < |s.lost|
      ensures LostLate(s', s.lost[i])
    {
      assert LostLate(s, s.lost[i]);
    }
    if s.lost != [] && s.lost[|s.lost| - 1].code == Current(s') && CodeAlive(s'.keys, e.at) {
      assert LostLate(s, s.lost[|s.lost| - 1]);
      StaysSettled(s, e);
    }
  }

  lemma LossAddsLate(s: State, e: Event)
    requires TimeInv(s) && Solo(s) && Enabled(s, e) && Loses(s, e)
    ensures LossesLate(Next(s, e))
  {
    var s' := Next(s, e);
    HistoryAfter(s, e);
    LosesLate(s, e);
    forall i | 0 <= i < |s'.lost|
      ensures LostLate(s', s'.lost[i]) && (i < |s.lost| ==> s'.lost[i].code < Current(s))
    {
      if i < |s.lost| {
        assert LostLate(s, s.lost[i]) && LostLate(s, s.lost[|s.lost| - 1]);
      }
    }
  }

  lemma {:induction false} RunStaysSolo(es: seq<Event>)
    requires CanRun(START, es) && AtMost(START, es, 1)
    ensures Solo(Run(START, es)) && TimeInv(Run(START, es))
    decreases |es|
  {
    if es != [] {
      var s, e := Run(START, es[..|es| - 1]), es[|es| - 1];
      RunStaysSolo(es[..|es| - 1]);
      StepKeepsTimes(s, e);
      StepStaysHarmless(s, e);
      if Loses(s, e) { LossAddsLate(s, e); } else { LossesStayLate(s, e); }
    }
  }

  lemma LossesApart(s: State)
    requires CodeTimed(s) && LossesLate(s)
    ensures Sorted(Times(s.lost)) && Spaced(Times(s.lost), 1, REMEMBERED_MS)
  {
    var ts := Times(s.lost);
    forall i, j | 0 <= i < j < |ts|
      ensures ts[i] + REMEMBERED_MS <= ts[j]
    {
      var a, b := s.lost[i], s.lost[j];
      assert LostLate(s, a) && LostLate(s, b);
      assert s.issued[a.code + 1] <= s.issued[b.code];
    }
  }

  /** When calls do not overlap, a code loses its count at most once, and meets at most five wrong guesses. */
  lemma PerCodeAlone(es: seq<Event>, c: nat)
    requires CanRun(START, es) && AtMost(START, es, 1)
    ensures var s := Run(START, es); Tally(s.wrong, c) <= 3 + 2 * Tally(s.lost, c) && Tally(s.lost, c) <= 1
  {
    PerCode(es, 1, c);
    RunStaysSolo(es);
    TallyDistinct(Run(START, es).lost, c);
  }

  lemma LateLossesIn(s: State, from: int, length: nat, n: nat)
    requires CodeTimed(s) && LossesLate(s) && length <= n * REMEMBERED_MS
    ensures InWindow(s.lost, from, from + length) <= n
  {
    LossesApart(s);
    SpacedBoundsWidths(Times(s.lost), 1, REMEMBERED_MS, from, from + length, n);
  }

  lemma LossesAlone(es: seq<Event>, from: int, length: nat)
    requires CanRun(START, es) && AtMost(START, es, 1)
    ensures InWindow(Run(START, es).lost, from, from + length) <= length / REMEMBERED_MS + 1
  {
    RunStaysSolo(es);
    LateLossesIn(Run(START, es), from, length, length / REMEMBERED_MS + 1);
  }

  /** A window holds three for each cooldown begun and the one before, and two for each life of the attempts key. */
  lemma GuessBoundAlone(es: seq<Event>, from: int, length: nat)
    requires CanRun(START, es) && AtMost(START, es, 1)
    ensures InWindow(Run(START, es).wrong, from, from + length)
            <= 3 * (length / 59501 + 2) + 2 * (length / 299501 + 1)
  {
    GuessBound(es, 1, from, from + length, length / COOLDOWN_MS + 1);
    CodesIs(1, length / COOLDOWN_MS + 1);
    LossesAlone(es, from, length);
  }
}
