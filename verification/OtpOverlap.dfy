/**
 * The bounds of OtpBounds are met for every number of calls in flight, so the limits the service is meant to have,
 * three wrong guesses and one use for each code, hold exactly when calls do not overlap.
 */
module OtpOverlap {
  import opened Common
  import opened Otp
  import opened OtpAlone
  import opened OtpBounds
  import opened OtpBudget
  import opened OtpTimes

  const DEV := Mode(false, false)

  ghost predicate Leads(s: State, es: seq<Event>, t: State, k: nat) {
    CanRun(s, es) && Run(s, es) == t && AtMost(s, es, k)
  }

  lemma Join(s: State, a: seq<Event>, t: State, b: seq<Event>, u: State, k: nat)
    requires Leads(s, a, t, k) && Leads(t, b, u, k)
    ensures Leads(s, a + b, u, k)
  {
    RunConcat(s, a, b);
    AtMostConcat(s, a, b, k);
  }

  lemma Step(s: State, a: seq<Event>, t: State, e: Event, u: State, k: nat)
    requires Leads(s, a, t, k) && Enabled(t, e) && Next(t, e) == u && |u.calls| <= k
    ensures Leads(s, a + [e], u, k)
  {
    Extend(s, a, t, e, u, k);
  }

  /** `k` calls, of which the first `n` are one command ahead of the others. */
  function Burst(before: Call, after: Call, n: nat, k: nat): map<CallId, Call> {
    map i | i in Range(0, k) :: if i < n then after else before
  }

  lemma BurstSize(before: Call, after: Call, n: nat, k: nat)
    ensures |Burst(before, after, n, k)| == k
  {
    RangeSize(k);
    MapSize(Burst(before, after, n, k));
    assert Burst(before, after, n, k).Keys == Range(0, k);
  }

  // ---- Many requests at once -----------------------------------------------------------------------------

  const ASKING := Cleared("right", DEV)

  const FRESH := Code("right", 300000)

  /** `n` of `k` requests have stored their code, all at time 0. */
  ghost predicate Flooded(s: State, n: nat, k: nat) {
    && s.clock == 0 && s.calls == Burst(ASKING, Stored, n, k) && |s.issued| == n
    && s.keys == (if n == 0 then NO_KEYS else NO_KEYS.(code := Some(FRESH)))
    && s.wrong == [] && s.matched == [] && s.lost == [] && s.expired == []
  }

  lemma AskOne(s: State, n: nat)
    requires Flooded(s, 0, n)
    ensures var e := Event(0, AskCode(n, "right", DEV)); Enabled(s, e) && Flooded(Next(s, e), 0, n + 1)
  {
    assert Burst(ASKING, Stored, 0, n)[n := ASKING] == Burst(ASKING, Stored, 0, n + 1);
  }

  lemma StoreOne(s: State, n: nat, k: nat)
    requires n < k && Flooded(s, n, k)
    ensures Enabled(s, Event(0, Go(n))) && Flooded(Next(s, Event(0, Go(n))), n + 1, k)
  {
    assert Burst(ASKING, Stored, n, k)[n := Stored] == Burst(ASKING, Stored, n + 1, k);
  }

  lemma {:induction false} AsksRun(n: nat, k: nat) returns (es: seq<Event>, s: State)
    requires n <= k
    ensures Leads(START, es, s, k) && Flooded(s, 0, n)
    decreases n
  {
    if n == 0 {
      es, s := [], START;
      assert Burst(ASKING, Stored, 0, 0) == map[];
    } else {
      var init, t := AsksRun(n - 1, k);
      var e := Event(0, AskCode(n - 1, "right", DEV));
      AskOne(t, n - 1);
      s := Next(t, e);
      BurstSize(ASKING, Stored, 0, n);
      Step(START, init, t, e, s, k);
      es := init + [e];
    }
  }

  lemma {:induction false} StoresRun(n: nat, k: nat) returns (es: seq<Event>, s: State)
    requires n <= k
    ensures Leads(START, es, s, k) && Flooded(s, n, k)
    decreases n
  {
    if n == 0 {
      es, s := AsksRun(k, k);
    } else {
      var init, t := StoresRun(n - 1, k);
      StoreOne(t, n - 1, k);
      s := Next(t, Event(0, Go(n - 1)));
      BurstSize(ASKING, Stored, n, k);
      Step(START, init, t, Event(0, Go(n - 1)), s, k);
      es := init + [Event(0, Go(n - 1))];
    }
  }

  // ---- Two guesses before each late DEL ------------------------------------------------------------------

  /** A wrong guess made on its own, without a lock. */
  function Guessed(s: State, at: nat): State {
    var late := CodeAlive(s.keys, at) && s.keys.attempts.Some? && !AttemptsAlive(s.keys.attempts, at);
    s.(clock := at, keys := s.keys.(attempts := Some(Counted(s.keys, at))), wrong := s.wrong + [Mark(at, Current(s))],
       lost := Noted(s.lost, late, at, Current(s)), expired := Noted(s.expired, late, at, Current(s)))
  }

  ghost predicate Open(s: State, at: nat) {
    s.clock <= at && s.keys.lock.None? && CodeAlive(s.keys, at) && s.keys.code.value.value == "right"
  }

  lemma OneMore(s: State, c: CallId, call: Call)
    requires c !in s.calls
    ensures |s.calls[c := call]| == |s.calls| + 1
  {
  }

  lemma GuessRuns(s: State, at: nat, c: CallId, k: nat) returns (es: seq<Event>)
    requires Open(s, at) && c !in s.calls && |s.calls| < k && Counted(s.keys, at).count < MAX_OTP_ATTEMPTS
    ensures Leads(s, es, Guessed(s, at), k)
  {
    var try, read := Event(at, TryLogin(c, "wrong")), Event(at, Go(c));
    var tried := Next(s, try);
    var compared := Next(tried, read);
    OneMore(s, c, Unlocked("wrong"));
    OneMore(s, c, Wrong(Current(s)));
    UpdateTwice(s.calls, c, Unlocked("wrong"), Wrong(Current(s)));
    Step(s, [], s, try, tried, k);
    Step(s, [] + [try], tried, read, compared, k);
    GuessCounts(s, compared, at, c);
    var rest := AloneRuns(compared, at, c, false, k);
    Join(s, [] + [try] + [read], compared, rest, Guessed(s, at), k);
    es := [] + [try] + [read] + rest;
  }

  lemma GuessCounts(s: State, t: State, at: nat, c: CallId)
    requires Open(s, at) && c !in s.calls && Counted(s.keys, at).count < MAX_OTP_ATTEMPTS
    requires t == s.(clock := at, calls := s.calls[c := Wrong(Current(s))], wrong := s.wrong + [Mark(at, Current(s))])
    ensures Alone(t, at, c, false) == Guessed(s, at)
  {
    TallySnoc(s.wrong, Mark(at, Current(s)), Current(s));
    WrongAlone(t, s.(clock := at), c, Current(s), false);
  }

  const ISSUED := Keys(Some(FRESH), Some(60000), None, None)

  /** The requests from number `j` on, waiting to delete the attempts. */
  function Waiting(j: nat, n: nat): map<CallId, Call> {
    map i | i in Range(j, n) :: Stored
  }

  /** `j` of the `k - 1` late requests have come and gone, each after two wrong guesses at the last code. */
  ghost predicate Drained(s: State, j: nat, k: nat) {
    && j < k && s.clock == 0 && s.keys == ISSUED && s.calls == Waiting(j, k - 1) && |s.issued| == k
    && Tally(s.wrong, k - 1) == j + j && s.matched == [] && s.expired == []
  }

  lemma {:induction false} WaitingSize(j: nat, n: nat)
    requires j <= n
    ensures |Waiting(j, n)| == n - j
  {
    RangeSize(n);
    RangeSize(j);
    assert Waiting(j, n).Keys == Range(0, n) - Range(0, j);
    assert Range(0, j) <= Range(0, n);
    MapSize(Waiting(j, n));
  }

  /** The last of the requests finishes at once. */
  lemma FirstDrained(k: nat) returns (es: seq<Event>, s: State)
    requires 1 <= k
    ensures Leads(START, es, s, k) && Drained(s, 0, k)
  {
    var flood, t := StoresRun(k, k);
    BurstSize(ASKING, Stored, k, k);
    s := t.(keys := ISSUED, calls := Waiting(0, k - 1));
    assert t.calls == s.calls[k - 1 := Stored];
    StoredAlone(t, s, k - 1, false);
    var last := AloneRuns(t, 0, k - 1, false, k);
    Join(START, flood, t, last, s, k);
    es := flood + last;
  }

  /** Two wrong guesses at time 0. */
  function TwiceGuessed(s: State): State {
    s.(keys := s.keys.(attempts := Some(Attempts(2, Some(300000)))), wrong := s.wrong + [Mark(0, Current(s))] + [Mark(0, Current(s))])
  }

  function OnceGuessed(s: State): State {
    s.(keys := s.keys.(attempts := Some(Attempts(1, Some(300000)))), wrong := s.wrong + [Mark(0, Current(s))])
  }

  ghost predicate GuessLeads(s: State, at: nat, t: State) {
    Open(s, at) && Counted(s.keys, at).count < MAX_OTP_ATTEMPTS && Guessed(s, at) == t
  }

  lemma TwiceLead(s: State)
    requires s.clock == 0 && s.keys == ISSUED
    ensures GuessLeads(s, 0, OnceGuessed(s)) && GuessLeads(OnceGuessed(s), 0, TwiceGuessed(s))
  {
    assert Counted(s.keys, 0) == Attempts(1, Some(300000));
    assert Counted(OnceGuessed(s).keys, 0) == Attempts(2, Some(300000));
  }

  lemma ThenGuess(s: State, es: seq<Event>, t: State, at: nat, u: State, c: CallId, k: nat) returns (more: seq<Event>)
    requires Leads(s, es, t, k) && c !in t.calls && |t.calls| < k && GuessLeads(t, at, u)
    ensures Leads(s, more, u, k)
  {
    var guess := GuessRuns(t, at, c, k);
    Join(s, es, t, guess, u, k);
    more := es + guess;
  }

  lemma TwoGuessesRun(s: State, c: CallId, k: nat) returns (es: seq<Event>)
    requires s.clock == 0 && s.keys == ISSUED && c !in s.calls && |s.calls| < k
    ensures Leads(s, es, TwiceGuessed(s), k)
  {
    TwiceLead(s);
    es := ThenGuess(s, [], s, 0, OnceGuessed(s), c, k);
    es := ThenGuess(s, es, OnceGuessed(s), 0, TwiceGuessed(s), c, k);
  }

  lemma TwiceTally(s: State)
    ensures Tally(TwiceGuessed(s).wrong, Current(s)) == Tally(s.wrong, Current(s)) + 2
  {
    TallySnoc(s.wrong, Mark(0, Current(s)), Current(s));
    TallySnoc(s.wrong + [Mark(0, Current(s))], Mark(0, Current(s)), Current(s));
  }

  lemma WaitingMore(j: nat, n: nat)
    requires j < n
    ensures j !in Waiting(j + 1, n) && Waiting(j, n) == Waiting(j + 1, n)[j := Stored]
  {
  }

  /** Two wrong guesses, and then the DEL of request `j`. */
  function RoundEnd(s: State, j: nat, n: nat): State {
    var u := TwiceGuessed(s);
    u.(keys := ISSUED, calls := Waiting(j + 1, n), lost := Noted(s.lost, Remembers(u, 0), 0, Current(u)))
  }

  lemma RoundDrains(s: State, j: nat, k: nat)
    requires Drained(s, j, k) && j + 1 < k
    ensures Drained(RoundEnd(s, j, k - 1), j + 1, k)
  {
    TwiceTally(s);
  }

  lemma RoundEnds(s: State, j: nat, n: nat)
    requires j < n && s.clock == 0 && s.keys == ISSUED && s.calls == Waiting(j, n)
    ensures Alone(TwiceGuessed(s), 0, j, false) == RoundEnd(s, j, n)
  {
    WaitingMore(j, n);
    StoredAlone(TwiceGuessed(s), RoundEnd(s, j, n), j, false);
  }

  lemma RoundRuns(s: State, j: nat, k: nat) returns (es: seq<Event>, t: State)
    requires Drained(s, j, k) && j + 1 < k
    ensures Leads(s, es, t, k) && Drained(t, j + 1, k)
  {
    WaitingSize(j, k - 1);
    assert k !in s.calls;
    var guesses := TwoGuessesRun(s, k, k);
    RoundEnds(s, j, k - 1);
    RoundDrains(s, j, k);
    t := RoundEnd(s, j, k - 1);
    var last := AloneRuns(TwiceGuessed(s), 0, j, false, k);
    Join(s, guesses, TwiceGuessed(s), last, t, k);
    es := guesses + last;
  }

  lemma {:induction false} RoundsRun(j: nat, k: nat) returns (es: seq<Event>, s: State)
    requires j < k
    ensures Leads(START, es, s, k) && Drained(s, j, k)
  {
    if j == 0 {
      es, s := FirstDrained(k);
    } else {
      var init, r := RoundsRun(j - 1, k);
      var round, t := RoundRuns(r, j - 1, k);
      Join(START, init, r, round, t, k);
      es, s := init + round, t;
    }
  }

  /** All late requests are gone: 2(k - 1) wrong guesses, and no count. */
  lemma SpentRuns(k: nat) returns (es: seq<Event>, s: State)
    requires 1 <= k
    ensures Leads(START, es, s, k) && s.calls == map[] && Drained(s, k - 1, k) && Current(s) == k - 1
  {
    es, s := RoundsRun(k - 1, k);
    WaitingSize(k - 1, k - 1);
  }

  // ---- A burst of logins ---------------------------------------------------------------------------------

  lemma TryOne(s: State, otp: string, after: Call, n: nat)
    requires s.keys.lock.None?
    ensures var t, e := s.(calls := Burst(Unlocked(otp), after, 0, n)), Event(s.clock, TryLogin(n, otp));
            Enabled(t, e) && Next(t, e) == s.(calls := Burst(Unlocked(otp), after, 0, n + 1))
  {
    assert Burst(Unlocked(otp), after, 0, n)[n := Unlocked(otp)] == Burst(Unlocked(otp), after, 0, n + 1);
  }

  function Trying(s: State, otp: string, after: Call, n: nat): State {
    s.(calls := Burst(Unlocked(otp), after, 0, n))
  }

  lemma TryStep(s: State, es: seq<Event>, t: State, otp: string, after: Call, n: nat, k: nat) returns (more: seq<Event>)
    requires Leads(s, es, Trying(t, otp, after, n), k) && t.keys.lock.None? && n < k
    ensures Leads(s, more, Trying(t, otp, after, n + 1), k)
  {
    var e := Event(t.clock, TryLogin(n, otp));
    TryOne(t, otp, after, n);
    BurstSize(Unlocked(otp), after, 0, n + 1);
    Step(s, es, Trying(t, otp, after, n), e, Trying(t, otp, after, n + 1), k);
    more := es + [e];
  }

  lemma {:induction false} TriesRun(s: State, otp: string, after: Call, n: nat, k: nat) returns (es: seq<Event>)
    requires s.calls == map[] && s.keys.lock.None? && n <= k
    ensures Leads(s, es, Trying(s, otp, after, n), k)
    decreases n
  {
    if n == 0 {
      es := [];
      assert Burst(Unlocked(otp), after, 0, 0) == map[];
    } else {
      es := TriesRun(s, otp, after, n - 1, k);
      es := TryStep(s, es, s, otp, after, n - 1, k);
    }
  }

  predicate IsRight(s: State, otp: string) {
    s.keys.code.Some? && s.keys.code.value.value == otp
  }

  function Verdict(s: State, otp: string): Call {
    if IsRight(s, otp) then Right(Current(s)) else Wrong(Current(s))
  }

  /** `n` of the `k` logins have read the code, and all came to the same verdict. */
  ghost predicate Compared(s: State, t: State, otp: string, n: nat, k: nat) {
    && t.clock == s.clock && t.keys == s.keys && t.issued == s.issued && t.expired == s.expired
    && t.calls == Burst(Unlocked(otp), Verdict(s, otp), n, k)
    && (if IsRight(s, otp) then Tally(t.matched, Current(s)) == Tally(s.matched, Current(s)) + n
        else Tally(t.wrong, Current(s)) == Tally(s.wrong, Current(s)) + n)
  }

  lemma ReadOne(s: State, t: State, otp: string, n: nat, k: nat)
    requires CodeAlive(s.keys, s.clock) && n < k && Compared(s, t, otp, n, k)
    ensures Enabled(t, Event(s.clock, Go(n))) && Compared(s, Next(t, Event(s.clock, Go(n))), otp, n + 1, k)
  {
    var after := Verdict(s, otp);
    assert Burst(Unlocked(otp), after, n, k)[n := after] == Burst(Unlocked(otp), after, n + 1, k);
    TallySnoc(t.wrong, Mark(s.clock, Current(s)), Current(s));
    TallySnoc(t.matched, Mark(s.clock, Current(s)), Current(s));
  }

  /** From an open state without calls, `k` logins at once, of which `n` reach the comparison. */
  lemma {:induction false} BurstRuns(s: State, otp: string, n: nat, k: nat) returns (es: seq<Event>, t: State)
    requires Open(s, s.clock) && s.calls == map[] && n <= k
    ensures Leads(s, es, t, k) && Compared(s, t, otp, n, k)
    decreases n
  {
    if n == 0 {
      es := TriesRun(s, otp, Verdict(s, otp), k, k);
      t := Trying(s, otp, Verdict(s, otp), k);
    } else {
      var init, r := BurstRuns(s, otp, n - 1, k);
      ReadOne(s, r, otp, n - 1, k);
      t := Next(r, Event(s.clock, Go(n - 1)));
      BurstSize(Unlocked(otp), Verdict(s, otp), n, k);
      Step(s, init, r, Event(s.clock, Go(n - 1)), t, k);
      es := init + [Event(s.clock, Go(n - 1))];
    }
  }

  // ---- The bounds are met --------------------------------------------------------------------------------

  /** With `k` calls in flight a code can meet 3k wrong guesses though nothing expired. */
  lemma WrongBoundMet(k: nat) returns (es: seq<Event>)
    requires 1 <= k
    ensures CanRun(START, es) && AtMost(START, es, k)
    ensures var s := Run(START, es); Tally(s.wrong, k - 1) == 3 * k && s.expired == []
  {
    var before, s := SpentRuns(k);
    var two := TwiceGuessed(s);
    var guesses := TwoGuessesRun(s, 0, k);
    TwiceTally(s);
    Join(START, before, s, guesses, two, k);
    var burst, last := BurstRuns(two, "wrong", k, k);
    Join(START, before + guesses, two, burst, last, k);
    es := before + guesses + burst;
  }

  /**
   * Four more guesses, without any lock: TTL rounds the 299.4 s that are left at the first guess down to 299 s, so the
   * count is lost 400 ms before the code dies; and the 300 ms left at the third guess round to no expiry at all.
   */
  function FourMore(s: State): State {
    var c := Current(s);
    s.(clock := 299800, keys := s.keys.(attempts := Some(Attempts(2, None))),
       wrong := s.wrong + [Mark(600, c)] + [Mark(1000, c)] + [Mark(299700, c)] + [Mark(299800, c)],
       lost := s.lost + [Mark(299700, c)], expired := s.expired + [Mark(299700, c)])
  }

  function After600(s: State): State {
    s.(clock := 600, keys := ISSUED.(attempts := Some(Attempts(1, Some(299600)))), wrong := s.wrong + [Mark(600, Current(s))])
  }

  function After1000(s: State): State {
    s.(clock := 1000, keys := ISSUED.(attempts := Some(Attempts(2, Some(299600)))),
       wrong := s.wrong + [Mark(600, Current(s))] + [Mark(1000, Current(s))])
  }

  function After299700(s: State): State {
    var c := Current(s);
    s.(clock := 299700, keys := ISSUED.(attempts := Some(Attempts(1, None))),
       wrong := s.wrong + [Mark(600, c)] + [Mark(1000, c)] + [Mark(299700, c)],
       lost := s.lost + [Mark(299700, c)], expired := s.expired + [Mark(299700, c)])
  }

  lemma FirstTwoLead(s: State)
    requires s.clock == 0 && s.keys == ISSUED && s.calls == map[]
    ensures GuessLeads(s, 600, After600(s)) && GuessLeads(After600(s), 1000, After1000(s))
  {
    assert Counted(s.keys, 600) == Attempts(1, Some(299600));
    assert Counted(After600(s).keys, 1000) == Attempts(2, Some(299600));
  }

  lemma LastTwoLead(s: State)
    requires s.clock == 0 && s.keys == ISSUED && s.calls == map[]
    ensures GuessLeads(After1000(s), 299700, After299700(s)) && GuessLeads(After299700(s), 299800, FourMore(s))
  {
    assert Counted(After1000(s).keys, 299700) == Attempts(1, None);
    assert Counted(After299700(s).keys, 299800) == Attempts(2, None);
  }

  lemma FourMoreRun(s: State, es: seq<Event>, t: State, k: nat) returns (more: seq<Event>)
    requires Leads(s, es, t, k) && t.clock == 0 && t.keys == ISSUED && t.calls == map[] && 1 <= k
    ensures Leads(s, more, FourMore(t), k)
  {
    FirstTwoLead(t);
    LastTwoLead(t);
    more := ThenGuess(s, es, t, 600, After600(t), 0, k);
    more := ThenGuess(s, more, After600(t), 1000, After1000(t), 0, k);
    more := ThenGuess(s, more, After1000(t), 299700, After299700(t), 0, k);
    more := ThenGuess(s, more, After299700(t), 299800, FourMore(t), 0, k);
  }

  lemma FourMoreTally(s: State)
    ensures Tally(FourMore(s).wrong, Current(s)) == Tally(s.wrong, Current(s)) + 4
    ensures Tally(FourMore(s).expired, Current(s)) == Tally(s.expired, Current(s)) + 1
  {
    var c := Current(s);
    TallySnoc(s.wrong, Mark(600, c), c);
    TallySnoc(s.wrong + [Mark(600, c)], Mark(1000, c), c);
    TallySnoc(s.wrong + [Mark(600, c)] + [Mark(1000, c)], Mark(299700, c), c);
    TallySnoc(s.wrong + [Mark(600, c)] + [Mark(1000, c)] + [Mark(299700, c)], Mark(299800, c), c);
    TallySnoc(s.expired, Mark(299700, c), c);
  }

  /** And two more with one expiry, so five when calls do not overlap. */
  lemma ExpiryAddsTwo(k: nat) returns (es: seq<Event>)
    requires 1 <= k
    ensures CanRun(START, es) && AtMost(START, es, k)
    ensures var s := Run(START, es); Tally(s.wrong, k - 1) == 3 * k + 2 && Tally(s.expired, k - 1) == 1
  {
    var before, s := SpentRuns(k);
    var four := FourMore(s);
    var guesses := FourMoreRun(START, before, s, k);
    FourMoreTally(s);
    var burst, last := BurstRuns(four, "wrong", k, k);
    Join(START, guesses, four, burst, last, k);
    es := guesses + burst;
  }

  /** One code can let in `k` logins. */
  lemma PassBoundMet(k: nat) returns (es: seq<Event>)
    requires 1 <= k
    ensures CanRun(START, es) && AtMost(START, es, k) && Tally(Run(START, es).matched, k - 1) == k
  {
    var before, s := SpentRuns(k);
    var burst, last := BurstRuns(s, "right", k, k);
    Join(START, before, s, burst, last, k);
    es := before + burst;
  }

  ghost predicate UsedOnce(k: nat) {
    forall es, c: nat :: CanRun(START, es) && AtMost(START, es, k) ==> Tally(Run(START, es).matched, c) <= 1
  }

  ghost predicate ThreeGuesses(k: nat) {
    forall es, c: nat :: CanRun(START, es) && AtMost(START, es, k) && Run(START, es).expired == [] ==> Tally(Run(START, es).wrong, c) <= 3
  }

  /** A code passes the comparison at most once in every run exactly when calls do not overlap. */
  lemma UsedOnceIff(k: nat)
    ensures UsedOnce(k) <==> k <= 1
  {
    if k <= 1 {
      forall es, c: nat | CanRun(START, es) && AtMost(START, es, k)
        ensures Tally(Run(START, es).matched, c) <= 1
      {
        AtMostMore(START, es, k, 1);
        PerCode(es, 1, c);
      }
    } else {
      var es := PassBoundMet(k);
    }
  }

  /** As long as nothing expires, a code meets at most three wrong guesses exactly when calls do not overlap. */
  lemma ThreeGuessesIff(k: nat)
    ensures ThreeGuesses(k) <==> k <= 1
  {
    if k <= 1 {
      forall es, c: nat | CanRun(START, es) && AtMost(START, es, k) && Run(START, es).expired == []
        ensures Tally(Run(START, es).wrong, c) <= 3
      {
        AtMostMore(START, es, k, 1);
        PerCode(es, 1, c);
      }
    } else {
      var es := WrongBoundMet(k);
    }
  }

  // ---- An expiry by the TTL of an older code -------------------------------------------------------------

  const OLD := State(0, ISSUED, map[], [] + [0], [], [], [], [])

  lemma OldRuns() returns (es: seq<Event>)
    ensures Leads(START, es, OLD, 2)
  {
    var none: map<CallId, Call> := map[];
    var ask, go := Event(0, AskCode(0, "right", DEV)), Event(0, Go(0));
    var asked := START.(calls := none[0 := ASKING]);
    var stored := OLD.(keys := NO_KEYS.(code := Some(FRESH)), calls := none[0 := Stored]);
    Step(START, [], START, ask, asked, 2);
    UpdateTwice(none, 0, ASKING, Stored);
    Step(START, [] + [ask], asked, go, stored, 2);
    StoredAlone(stored, OLD, 0, false);
    var rest := AloneRuns(stored, 0, 0, false, 2);
    Join(START, [] + [ask] + [go], stored, rest, OLD, 2);
    es := [] + [ask] + [go] + rest;
  }

  const STALE: map<CallId, Call> := map[1 := Timed(0, 10)]

  /** At 290 s a login has counted a wrong guess and read the TTL of the code, 10 s. */
  const READ_TTL := OLD.(clock := 290000, keys := ISSUED.(attempts := Some(Attempts(1, None))), calls := STALE, wrong := [Mark(290000, 0)])

  const TRYING := OLD.(clock := 290000, calls := map[1 := Unlocked("wrong")])

  const COMPARED := OLD.(clock := 290000, calls := map[1 := Wrong(0)], wrong := [Mark(290000, 0)])

  const COUNTED := READ_TTL.(calls := map[1 := First])

  lemma FirstTtlSteps()
    ensures var try := Event(290000, TryLogin(1, "wrong")); Enabled(OLD, try) && Next(OLD, try) == TRYING
    ensures Enabled(TRYING, Event(290000, Go(1))) && Next(TRYING, Event(290000, Go(1))) == COMPARED
  {
    assert TRYING.calls[1 := Wrong(0)] == COMPARED.calls;
    assert [] + [Mark(290000, 0)] == [Mark(290000, 0)];
  }

  lemma LastTtlSteps()
    ensures Enabled(COMPARED, Event(290000, Go(1))) && Next(COMPARED, Event(290000, Go(1))) == COUNTED
    ensures Enabled(COUNTED, Event(290000, Go(1))) && Next(COUNTED, Event(290000, Go(1))) == READ_TTL
  {
    assert COMPARED.calls[1 := First] == COUNTED.calls;
    assert COUNTED.calls[1 := Timed(0, 10)] == STALE;
  }

  lemma ReadTtlRuns() returns (es: seq<Event>)
    ensures Leads(OLD, es, READ_TTL, 2)
  {
    var try, go := Event(290000, TryLogin(1, "wrong")), Event(290000, Go(1));
    FirstTtlSteps();
    LastTtlSteps();
    Step(OLD, [], OLD, try, TRYING, 2);
    Step(OLD, [] + [try], TRYING, go, COMPARED, 2);
    Step(OLD, [] + [try] + [go], COMPARED, go, COUNTED, 2);
    Step(OLD, [] + [try] + [go] + [go], COUNTED, go, READ_TTL, 2);
    es := [] + [try] + [go] + [go] + [go];
  }

  /** Then a new code is issued. */
  const REISSUED := READ_TTL.(issued := [] + [0] + [290000], keys := Keys(Some(Code("right", 590000)), Some(350000), None, None))

  const REASKED := READ_TTL.(calls := STALE[2 := Cleared("right", DEV)])

  const RESTORED := REISSUED.(calls := STALE[2 := Stored],
                              keys := REISSUED.keys.(cooldown := Some(60000), attempts := READ_TTL.keys.attempts))

  lemma ReissueSteps()
    ensures var ask := Event(290000, AskCode(2, "right", DEV)); Enabled(READ_TTL, ask) && Next(READ_TTL, ask) == REASKED
    ensures Enabled(REASKED, Event(290000, Go(2))) && Next(REASKED, Event(290000, Go(2))) == RESTORED
    ensures Alone(RESTORED, 290000, 2, false) == REISSUED
  {
    UpdateTwice(STALE, 2, Cleared("right", DEV), Stored);
    TallyNone(READ_TTL.wrong, 1);
    StoredAlone(RESTORED, REISSUED, 2, false);
  }

  lemma ReissueRuns() returns (es: seq<Event>)
    ensures Leads(READ_TTL, es, REISSUED, 2)
  {
    var ask, go := Event(290000, AskCode(2, "right", DEV)), Event(290000, Go(2));
    ReissueSteps();
    Step(READ_TTL, [], READ_TTL, ask, REASKED, 2);
    Step(READ_TTL, [] + [ask], REASKED, go, RESTORED, 2);
    var rest := AloneRuns(RESTORED, 290000, 2, false, 2);
    Join(READ_TTL, [] + [ask] + [go], RESTORED, rest, REISSUED, 2);
    es := [] + [ask] + [go] + rest;
  }

  /** A wrong guess at the new code makes a new attempts key. */
  const RECOUNTED := REISSUED.(keys := REISSUED.keys.(attempts := Some(Attempts(1, Some(590000)))), wrong := REISSUED.wrong + [Mark(290000, 1)])

  lemma RecountLeads()
    ensures GuessLeads(REISSUED, 290000, RECOUNTED) && 2 !in STALE && |STALE| == 1
  {
    assert Counted(REISSUED.keys, 290000) == Attempts(1, Some(590000));
  }

  lemma RecountRuns() returns (es: seq<Event>)
    ensures Leads(REISSUED, es, RECOUNTED, 2)
  {
    RecountLeads();
    es := GuessRuns(REISSUED, 290000, 2, 2);
  }

  /** Then the late EXPIRE sets it to 10 s. */
  const STALE_KEY := RECOUNTED.(keys := RECOUNTED.keys.(attempts := Some(Attempts(1, Some(300000)))), calls := map[])

  lemma StaleExpireLands()
    ensures Enabled(RECOUNTED, Event(290000, Go(1))) && Next(RECOUNTED, Event(290000, Go(1))) == STALE_KEY
    ensures CodeAlive(STALE_KEY.keys, STALE_KEY.clock) && Tally(STALE_KEY.wrong, Current(STALE_KEY)) > 0
  {
    TallySnoc(REISSUED.wrong, Mark(290000, 1), 1);
    assert STALE - {1} == map[];
  }

  lemma StaleExpireRuns() returns (es: seq<Event>)
    ensures Leads(START, es, STALE_KEY, 2)
  {
    var before := OldRuns();
    var ttl := ReadTtlRuns();
    Join(START, before, OLD, ttl, READ_TTL, 2);
    var reissue := ReissueRuns();
    Join(START, before + ttl, READ_TTL, reissue, REISSUED, 2);
    var guess := RecountRuns();
    Join(START, before + ttl + reissue, REISSUED, guess, RECOUNTED, 2);
    StaleExpireLands();
    Step(START, before + ttl + reissue + guess, RECOUNTED, Event(290000, Go(1)), STALE_KEY, 2);
    es := before + ttl + reissue + guess + [Event(290000, Go(1))];
  }

  /** An attempts key that has counted guesses at the living code dies at most 499 ms before it. */
  ghost predicate CountsToTheEnd(k: nat) {
    forall es :: CanRun(START, es) && AtMost(START, es, k) ==> CountLasts(Run(START, es))
  }

  predicate CountLasts(s: State) {
    CodeAlive(s.keys, s.clock) && Tally(s.wrong, Current(s)) > 0 ==> NearlyOutlives(s.keys)
  }

  /** That holds in every run exactly when calls do not overlap. */
  lemma CountsToTheEndIff(k: nat)
    ensures CountsToTheEnd(k) <==> k <= 1
  {
    if k <= 1 {
      forall es | CanRun(START, es) && AtMost(START, es, k)
        ensures CountLasts(Run(START, es))
      {
        AtMostMore(START, es, k, 1);
        RunStaysSolo(es);
      }
    } else {
      var es := StaleExpireRuns();
      StaleExpireLands();
      AtMostMore(START, es, 2, k);
      assert !CountLasts(STALE_KEY);
    }
  }

  // ---- The lock ------------------------------------------------------------------------------------------

  /** A lock of 900 s stops being seen when fewer than 500 ms of it are left. */
  const LOCK_MARGIN_MS := 500

  ghost predicate Until(es: seq<Event>, until: int) {
    forall i :: 0 <= i < |es| ==> es[i].at <= until
  }

  /** Some login of the run is told that it is in. */
  ghost predicate LetsIn(s: State, es: seq<Event>)
    requires CanRun(s, es)
    decreases |es|
  {
    es != [] && (LetsIn(s, es[..|es| - 1]) || Answer(Run(s, es[..|es| - 1]), es[|es| - 1]) == Some(Ok(())))
  }

  lemma InIsAdmit(s: State, e: Event)
    requires Enabled(s, e)
    ensures Answer(s, e) == Some(Ok(())) <==> e.act.Admit? && !e.act.suspended
  {
  }

  predicate Admits(e: Event) {
    e.act.Admit? && !e.act.suspended
  }

  lemma AdmitsSnoc(es: seq<Event>, e: Event)
    ensures (exists i :: 0 <= i < |es + [e]| && Admits((es + [e])[i])) <==> Admits(e) || exists i :: 0 <= i < |es| && Admits(es[i])
  {
    var all := es + [e];
    assert all[|es|] == e;
    if i :| 0 <= i < |es| && Admits(es[i]) {
      assert all[i] == es[i];
    }
  }

  /** That is so exactly when a login passes whose account is not suspended. */
  lemma {:induction false} LetsInIff(s: State, es: seq<Event>)
    requires CanRun(s, es)
    ensures LetsIn(s, es) <==> exists i :: 0 <= i < |es| && Admits(es[i])
    decreases |es|
  {
    if es != [] {
      var init, last := es[..|es| - 1], es[|es| - 1];
      LetsInIff(s, init);
      InIsAdmit(Run(s, init), last);
      AdmitsSnoc(init, last);
      assert init + [last] == es;
    }
  }

  /** The login is past the lock check and has not failed. */
  predicate MayPass(call: Call) {
    call.Unlocked? || call.Right? || call.Passed?
  }

  ghost predicate NonePast(s: State) {
    forall id :: id in s.calls ==> !MayPass(s.calls[id])
  }

  ghost predicate LockedUntil(s: State, until: int) {
    s.keys.lock.Some? && until <= s.keys.lock.value && until <= s.clock + 900000 && NonePast(s)
  }

  lemma StepStaysLocked(s: State, e: Event, until: int)
    requires LockedUntil(s, until) && Enabled(s, e) && e.at <= until - LOCK_MARGIN_MS
    ensures LockedUntil(Next(s, e), until) && Answer(s, e) != Some(Ok(())) && Next(s, e).matched == s.matched
  {
    var s' := Next(s, e);
    assert e.act.call in s.calls ==> !MayPass(s.calls[e.act.call]);
    forall id | id in s'.calls
      ensures !MayPass(s'.calls[id])
    {
      if id != e.act.call {
        OtherCallsStay(s, e, id);
      }
    }
  }

  lemma {:induction false} StaysLocked(s: State, es: seq<Event>, until: int)
    requires LockedUntil(s, until) && CanRun(s, es) && Until(es, until - LOCK_MARGIN_MS)
    ensures LockedUntil(Run(s, es), until) && !LetsIn(s, es) && Run(s, es).matched == s.matched
    decreases |es|
  {
    if es != [] {
      var init, e := es[..|es| - 1], es[|es| - 1];
      StaysLocked(s, init, until);
      StepStaysLocked(Run(s, init), e, until);
    }
  }

  lemma PassedLetsIn(s: State, id: CallId) returns (es: seq<Event>)
    requires id in s.calls && (s.calls[id].Passed? || s.calls[id].Right?)
    ensures CanRun(s, es) && Until(es, s.clock) && LetsIn(s, es)
  {
    var go, admit := Event(s.clock, Go(id)), Event(s.clock, Admit(id, false));
    if s.calls[id].Passed? {
      es := [] + [admit];
      RunSnoc(s, [], admit);
      assert es[..0] == [];
    } else {
      es := [] + [go] + [admit];
      RunSnoc(s, [], go);
      RunSnoc(s, [] + [go], admit);
      assert es[..1] == [] + [go];
    }
  }

  /** A login past the lock check is let in if its code is there. */
  lemma UnlockedLetsIn(s: State, id: CallId) returns (es: seq<Event>)
    requires id in s.calls && s.calls[id].Unlocked? && CodeAlive(s.keys, s.clock) && s.keys.code.value.value == s.calls[id].otp
    ensures CanRun(s, es) && Until(es, s.clock) && LetsIn(s, es)
  {
    var go := Event(s.clock, Go(id));
    RunSnoc(s, [], go);
    var rest := PassedLetsIn(Next(s, go), id);
    RunConcat(s, [] + [go], rest);
    es := [] + [go] + rest;
    LetsInLater(s, [] + [go], rest);
  }

  lemma LetsInLater(s: State, a: seq<Event>, b: seq<Event>)
    requires CanRun(s, a) && CanRun(Run(s, a), b) && CanRun(s, a + b) && LetsIn(Run(s, a), b)
    ensures LetsIn(s, a + b)
  {
    LetsInIff(Run(s, a), b);
    LetsInIff(s, a + b);
    var i :| 0 <= i < |b| && Admits(b[i]);
    assert (a + b)[|a| + i] == b[i];
  }

  lemma IssuedMeanwhile(s: State, id: CallId, d: CallId, at: nat)
    requires id in s.calls && s.calls[id].Unlocked? && d !in s.calls && s.clock <= at && Ttl(s.keys.cooldown, at) <= 0
    ensures var ask := Event(at, AskCode(d, s.calls[id].otp, DEV));
            && Enabled(s, ask)
            && Enabled(Next(s, ask), Event(at, Go(d)))
            && var t := Next(Next(s, ask), Event(at, Go(d)));
            && t.clock == at && id in t.calls && t.calls[id] == s.calls[id]
            && CodeAlive(t.keys, at) && t.keys.code.value.value == s.calls[id].otp
  {
  }

  /** And if it is not there yet, the code can be issued meanwhile. */
  lemma PastLockLetsIn(s: State, id: CallId) returns (es: seq<Event>)
    requires id in s.calls && s.calls[id].Unlocked?
    requires s.keys.cooldown.Some? ==> s.keys.cooldown.value <= s.clock + 60000
    ensures CanRun(s, es) && Until(es, s.clock + 60000) && LetsIn(s, es)
  {
    SomeFresh(s.calls.Keys);
    var d :| d !in s.calls.Keys;
    var at, otp := s.clock + 60000, s.calls[id].otp;
    var ask, store := Event(at, AskCode(d, otp, DEV)), Event(at, Go(d));
    IssuedMeanwhile(s, id, d, at);
    RunSnoc(s, [], ask);
    RunSnoc(s, [] + [ask], store);
    var rest := UnlockedLetsIn(Next(Next(s, ask), store), id);
    RunConcat(s, [] + [ask] + [store], rest);
    es := [] + [ask] + [store] + rest;
    LetsInLater(s, [] + [ask] + [store], rest);
  }

  /** No run up to then lets anybody in. */
  ghost predicate ShutOutUntil(s: State, until: int) {
    forall es :: CanRun(s, es) && Until(es, until) ==> !LetsIn(s, es)
  }

  /**
   * Once the phone is locked, no login succeeds until the lock has half a second left, whatever codes are issued, if
   * and only if no login in flight is past the lock check. The calls in flight can be looked at when the lock is set.
   */
  lemma LockedOutIff(s: State, until: int)
    requires s.keys.lock == Some(until) && s.clock + 60000 <= until - 500 && until <= s.clock + 900000
    requires s.keys.cooldown.Some? ==> s.keys.cooldown.value <= s.clock + 60000
    ensures NonePast(s) <==> ShutOutUntil(s, until - 500)
  {
    if NonePast(s) {
      forall es | CanRun(s, es) && Until(es, until - LOCK_MARGIN_MS)
        ensures !LetsIn(s, es)
      {
        StaysLocked(s, es, until);
      }
    } else {
      var id :| id in s.calls && MayPass(s.calls[id]);
      var es: seq<Event>;
      if s.calls[id].Unlocked? {
        es := PastLockLetsIn(s, id);
      } else {
        es := PassedLetsIn(s, id);
      }
      assert CanRun(s, es) && Until(es, until - LOCK_MARGIN_MS) && LetsIn(s, es);
    }
  }

  /**
   * When the third strike locks the phone and no other login is past the check, nobody gets in for 899.5 s; nor is
   * any new login let past the check in that time.
   */
  lemma LockShutsOut(s: State, e: Event, es: seq<Event>)
    requires Enabled(s, e) && e.act.Go? && s.calls[e.act.call].Third? && NonePast(s) && CanRun(Next(s, e), es) && Until(es, e.at + 899500)
    ensures !LetsIn(Next(s, e), es) && Run(Next(s, e), es).matched == s.matched && NonePast(Run(Next(s, e), es))
  {
    StaysLocked(Next(s, e), es, e.at + 900000);
  }

  ghost predicate CooldownBounded(s: State) {
    s.keys.cooldown.Some? ==> s.keys.cooldown.value <= s.clock + 60000
  }

  /** What `LockedOutIff` asks of the cooldown holds in every reachable state. */
  lemma {:induction false} CooldownIsBounded(es: seq<Event>)
    requires CanRun(START, es)
    ensures CooldownBounded(Run(START, es))
    decreases |es|
  {
    if es != [] {
      CooldownIsBounded(es[..|es| - 1]);
    }
  }
}
