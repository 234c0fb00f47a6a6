/**
 * The calls of a phone in flight: which kinds there are, when keys expire, how far apart codes are issued, and what
 * each step writes into the history.
 */
module OtpTimes {
  import opened Common
  import opened Otp
  import opened OtpBudget
  import opened Windows

  /** A cooldown of 60 s is over when fewer than 500 ms of it are left. */
  const COOLDOWN_MS := 59501
  /** By rounding, an attempts key dies at most so long before its code. */
  const ROUNDING_MS := 499
  /** So long at least does the attempts key live with its code when calls do not overlap. */
  const REMEMBERED_MS := 299501

  // ---- Calls in flight -----------------------------------------------------------------------------------

  predicate Strikes(call: Call, c: nat) {
    (call.Wrong? || call.Third? || call.Barred?) && call.code == c
  }

  /** The logins that compared wrongly with code `c` and have neither been counted low nor deleted the code yet. */
  function Holding(s: State, c: nat): set<CallId> {
    set id | id in s.calls && Strikes(s.calls[id], c)
  }

  predicate Passes(call: Call, c: nat) {
    call.Right? && call.code == c
  }

  /** The logins that passed the comparison with code `c` and have not deleted it yet. */
  function Passing(s: State, c: nat): set<CallId> {
    set id | id in s.calls && Passes(s.calls[id], c)
  }

  /** The requests that found the cooldown over and have not issued yet. */
  function Asking(s: State): set<CallId> {
    set id | id in s.calls && s.calls[id].Cleared?
  }

  /** The requests that have stored a code but not set the cooldown yet. */
  function Storing(s: State): set<CallId> {
    set id | id in s.calls && (s.calls[id].Stored? || s.calls[id].Wiped?)
  }

  predicate Deletes(call: Call) {
    call.Stored? || call.Dropped? || call.Passed?
  }

  /** The calls whose next command deletes the attempts but not the code. */
  function LateDels(s: State): set<CallId> {
    set id | id in s.calls && Deletes(s.calls[id])
  }

  /** The calls that will set the expiry of the attempts by the TTL of an older code. */
  function LateExpires(s: State): set<CallId> {
    set id | id in s.calls && s.calls[id].Timed? && s.calls[id].code != Current(s)
  }

  lemma InFlightBound(s: State, ids: set<CallId>)
    requires ids <= s.calls.Keys
    ensures |ids| <= |s.calls|
  {
    SubsetSmaller(ids, s.calls.Keys);
    MapSize(s.calls);
  }

  lemma DisjointBound(s: State, a: set<CallId>, b: set<CallId>, c: set<CallId>)
    requires a <= s.calls.Keys && b <= s.calls.Keys && c <= s.calls.Keys && a !! b !! c
    ensures |a| + |b| + |c| <= |s.calls|
  {
    assert |a + b + c| == |a| + |b| + |c|;
    InFlightBound(s, a + b + c);
  }

  // ---- Times ---------------------------------------------------------------------------------------------

  ghost predicate CodeTimed(s: State) {
    && Sorted(s.issued)
    && (forall i :: 0 <= i < |s.issued| ==> s.issued[i] <= s.clock)
    && (s.keys.code.Some? ==> s.issued != [] && s.keys.code.value.expires == s.issued[|s.issued| - 1] + 300000)
  }

  /** INCR never leaves less than 1. */
  ghost predicate CountsFromOne(k: Keys) {
    k.attempts.Some? ==> k.attempts.value.count >= 1
  }

  ghost predicate MarksKnown(s: State) {
    Known(s.wrong, |s.issued|) && Known(s.matched, |s.issued|) && Known(s.lost, |s.issued|)
  }

  ghost predicate CallsKnown(s: State) {
    forall id :: id in s.calls ==> CallKnown(s.calls[id], |s.issued|)
  }

  predicate CallKnown(call: Call, codes: nat) {
    call.Wrong? || call.Third? || call.Barred? || call.Right? || call.Timed? ==> call.code < codes
  }

  /** An EXPIRE under way by the TTL of the living code will set an expiry at most 499 ms before the code's. */
  ghost predicate ExpiresTimed(s: State) {
    forall id :: id in s.calls ==> Timely(s, s.calls[id])
  }

  predicate Timely(s: State, call: Call) {
    call.Timed? ==>
      && call.ttl >= 1
      && (CodeAlive(s.keys, s.clock) && call.code == Current(s) ==>
            s.keys.code.value.expires - ROUNDING_MS <= s.clock + 1000 * call.ttl)
  }

  ghost predicate TimeInv(s: State) {
    CodeTimed(s) && CountsFromOne(s.keys) && MarksKnown(s) && CallsKnown(s) && ExpiresTimed(s)
  }

  lemma StepKeepsCodeTimed(s: State, e: Event)
    requires CodeTimed(s) && Enabled(s, e)
    ensures CodeTimed(Next(s, e))
  {
  }

  lemma StepKeepsCounted(s: State, e: Event)
    requires CountsFromOne(s.keys) && Enabled(s, e)
    ensures CountsFromOne(Next(s, e).keys)
  {
  }

  lemma StepKeepsMarks(s: State, e: Event)
    requires CodeTimed(s) && MarksKnown(s) && Enabled(s, e)
    ensures MarksKnown(Next(s, e))
  {
  }

  /** A step changes no call but its own. */
  lemma OtherCallsStay(s: State, e: Event, id: CallId)
    requires Enabled(s, e) && id != e.act.call
    ensures id in Next(s, e).calls <==> id in s.calls
    ensures id in s.calls ==> Next(s, e).calls[id] == s.calls[id]
  {
  }

  lemma OwnCallKnown(s: State, e: Event)
    requires CodeTimed(s) && Enabled(s, e) && (e.act.call in s.calls ==> CallKnown(s.calls[e.act.call], |s.issued|))
    ensures e.act.call in Next(s, e).calls ==> CallKnown(Next(s, e).calls[e.act.call], |Next(s, e).issued|)
  {
  }

  lemma StepKeepsCalls(s: State, e: Event)
    requires CodeTimed(s) && CallsKnown(s) && Enabled(s, e)
    ensures CallsKnown(Next(s, e))
  {
    OwnCallKnown(s, e);
    CodeStays(s, e);
    forall id | id in Next(s, e).calls
      ensures CallKnown(Next(s, e).calls[id], |Next(s, e).issued|)
    {
      if id != e.act.call {
        OtherCallsStay(s, e, id);
      }
    }
  }

  lemma StepKeepsExpires(s: State, e: Event)
    requires CodeTimed(s) && CallsKnown(s) && ExpiresTimed(s) && Enabled(s, e)
    ensures ExpiresTimed(Next(s, e))
  {
    var s' := Next(s, e);
    CodeStays(s, e);
    forall id | id in s'.calls
      ensures Timely(s', s'.calls[id])
    {
      if id != e.act.call {
        OtherCallsStay(s, e, id);
        assert Timely(s, s.calls[id]) && CallKnown(s.calls[id], |s.issued|);
      } else {
        OwnCallTimely(s, e);
      }
    }
  }

  lemma OwnCallTimely(s: State, e: Event)
    requires Enabled(s, e)
    ensures e.act.call in Next(s, e).calls ==> Timely(Next(s, e), Next(s, e).calls[e.act.call])
  {
  }

  /** A step leaves the code, deletes it, or stores a new one. */
  lemma CodeStays(s: State, e: Event)
    requires Enabled(s, e)
    ensures var s' := Next(s, e);
            && s'.clock == e.at
            && ((s'.issued == s.issued && (s'.keys.code == s.keys.code || s'.keys.code.None?)) || s'.issued == s.issued + [e.at])
  {
  }

  lemma StepKeepsTimes(s: State, e: Event)
    requires TimeInv(s) && Enabled(s, e)
    ensures TimeInv(Next(s, e))
  {
    StepKeepsCodeTimed(s, e);
    StepKeepsCounted(s, e);
    StepKeepsMarks(s, e);
    StepKeepsCalls(s, e);
    StepKeepsExpires(s, e);
  }

  /**
   * EXPIRE `delay` ms after TTL: the attempts key dies at most 499 ms before, and 500 ms and the delay after, the
   * code whose TTL was read.
   */
  lemma ExpireLands(k: Keys, at: int, delay: nat)
    requires CodeAlive(k, at) && CodeTtl(k, at) > 0 && AttemptsAlive(k.attempts, at + delay)
    ensures var a := Expiring(k.attempts, at + delay, CodeTtl(k, at));
            && a.Some? && a.value.expires.Some? && a.value.count == k.attempts.value.count
            && -ROUNDING_MS + delay <= a.value.expires.value - k.code.value.expires <= 500 + delay
  {
  }

  // ---- How far apart codes are issued ------------------------------------------------------------------

  /** While a code is young, only requests in flight since then can issue again. */
  ghost predicate Young(s: State, k: nat, i: nat)
    requires i < |s.issued|
  {
    && |s.issued| - i + |Asking(s)| <= k
    && (|s.issued| - i <= |Storing(s)| || (s.keys.cooldown.Some? && s.issued[i] + 60000 <= s.keys.cooldown.value))
  }

  ghost predicate IssuesApart(s: State, k: nat) {
    && Spaced(s.issued, k, COOLDOWN_MS)
    && forall i :: 0 <= i < |s.issued| ==> s.issued[i] + COOLDOWN_MS <= s.clock || Young(s, k, i)
  }

  lemma AskKeepsApart(s: State, e: Event, k: nat)
    requires IssuesApart(s, k) && Enabled(s, e) && e.act.AskCode? && |Next(s, e).calls| <= k
    ensures IssuesApart(Next(s, e), k)
  {
    var s' := Next(s, e);
    if e.act.call in s'.calls {
      assert Storing(s') == Storing(s);
      DisjointBound(s', Asking(s'), Storing(s'), {});
      CooldownOver(s, s', k);
    } else {
      assert s'.calls == s.calls;
      YoungStays(s, s', k);
    }
  }

  lemma CooldownOver(s: State, t: State, k: nat)
    requires IssuesApart(s, k) && t.issued == s.issued && s.clock <= t.clock && t.keys.cooldown == s.keys.cooldown
    requires Ttl(s.keys.cooldown, t.clock) <= 0 && |Storing(t)| == |Storing(s)| && |Asking(t)| + |Storing(t)| <= k
    ensures IssuesApart(t, k)
  {
    forall i | 0 <= i < |s.issued|
      ensures s.issued[i] + COOLDOWN_MS <= t.clock || Young(t, k, i)
    {
      assert s.issued[i] + COOLDOWN_MS <= s.clock || Young(s, k, i);
    }
  }

  lemma YoungStays(s: State, t: State, k: nat)
    requires IssuesApart(s, k) && t.issued == s.issued && s.clock <= t.clock
    requires |Asking(t)| <= |Asking(s)| && |Storing(s)| <= |Storing(t)| && t.keys.cooldown == s.keys.cooldown
    ensures IssuesApart(t, k)
  {
    forall i | 0 <= i < |s.issued|
      ensures s.issued[i] + COOLDOWN_MS <= t.clock || Young(t, k, i)
    {
      assert s.issued[i] + COOLDOWN_MS <= s.clock || Young(s, k, i);
    }
  }

  lemma CodeMovesCall(s: State, e: Event)
    requires Enabled(s, e) && e.act.Go? && s.calls[e.act.call].Cleared? && Stores(s.calls[e.act.call].mode)
    ensures var s' := Next(s, e); s'.issued == s.issued + [e.at] && s'.keys.cooldown == s.keys.cooldown
    ensures |Asking(Next(s, e))| + 1 == |Asking(s)| && |Storing(Next(s, e))| == |Storing(s)| + 1
    ensures |Asking(s)| + |Storing(s)| <= |s.calls|
  {
    var s' := Next(s, e);
    assert Asking(s') == Asking(s) - {e.act.call} && e.act.call in Asking(s);
    assert Storing(s') == Storing(s) + {e.act.call} && e.act.call !in Storing(s);
    DisjointBound(s, Asking(s), Storing(s), {});
  }

  lemma AnotherApart(s: State, t: State, k: nat)
    requires CodeTimed(s) && IssuesApart(s, k) && s.clock <= t.clock && t.issued == s.issued + [t.clock]
    requires |Asking(t)| + 1 == |Asking(s)| && |Storing(t)| == |Storing(s)| + 1 && t.keys.cooldown == s.keys.cooldown
    requires |Asking(s)| + |Storing(s)| <= k
    ensures IssuesApart(t, k)
  {
    if |s.issued| >= k {
      var i := |s.issued| - k;
      assert s.issued[i] + COOLDOWN_MS <= s.clock || Young(s, k, i);
    }
    SpacedSnoc(s.issued, k, COOLDOWN_MS, t.clock);
    forall i | 0 <= i < |t.issued|
      ensures t.issued[i] + COOLDOWN_MS <= t.clock || Young(t, k, i)
    {
      if i < |s.issued| {
        assert s.issued[i] + COOLDOWN_MS <= s.clock || Young(s, k, i);
      }
    }
  }

  lemma CodeKeepsApart(s: State, e: Event, k: nat)
    requires CodeTimed(s) && IssuesApart(s, k) && Enabled(s, e) && e.act.Go? && s.calls[e.act.call].Cleared?
    requires Stores(s.calls[e.act.call].mode) && |s.calls| <= k
    ensures IssuesApart(Next(s, e), k)
  {
    CodeMovesCall(s, e);
    AnotherApart(s, Next(s, e), k);
  }

  lemma CooldownKeepsApart(s: State, e: Event, k: nat)
    requires CodeTimed(s) && IssuesApart(s, k) && Enabled(s, e) && e.act.Go?
    requires s.calls[e.act.call].Wiped? || (s.calls[e.act.call].Cleared? && !Stores(s.calls[e.act.call].mode))
    ensures IssuesApart(Next(s, e), k)
  {
    var s' := Next(s, e);
    SubsetSmaller(Asking(s'), Asking(s));
    forall i | 0 <= i < |s.issued|
      ensures s.issued[i] + COOLDOWN_MS <= e.at || Young(s', k, i)
    {
      assert s.issued[i] + COOLDOWN_MS <= s.clock || Young(s, k, i);
    }
  }

  lemma OthersStaySame(s: State, e: Event)
    requires Enabled(s, e) && !e.act.AskCode? && (e.act.Go? ==> !s.calls[e.act.call].Cleared? && !s.calls[e.act.call].Wiped?)
    ensures var s' := Next(s, e); s'.clock == e.at && s'.issued == s.issued && s'.keys.cooldown == s.keys.cooldown
    ensures Asking(Next(s, e)) == Asking(s) && Storing(Next(s, e)) == Storing(s)
  {
    var s' := Next(s, e);
    forall id
      ensures id in Asking(s') <==> id in Asking(s)
      ensures id in Storing(s') <==> id in Storing(s)
    {
      if id != e.act.call {
        OtherCallsStay(s, e, id);
      }
    }
  }

  lemma OthersKeepApart(s: State, e: Event, k: nat)
    requires IssuesApart(s, k) && Enabled(s, e) && !e.act.AskCode?
    requires e.act.Go? ==> !s.calls[e.act.call].Cleared? && !s.calls[e.act.call].Wiped?
    ensures IssuesApart(Next(s, e), k)
  {
    OthersStaySame(s, e);
    YoungStays(s, Next(s, e), k);
  }

  lemma StepKeepsApart(s: State, e: Event, k: nat)
    requires CodeTimed(s) && IssuesApart(s, k) && Enabled(s, e) && |s.calls| <= k && |Next(s, e).calls| <= k
    ensures IssuesApart(Next(s, e), k)
  {
    if e.act.AskCode? {
      AskKeepsApart(s, e, k);
    } else if e.act.Go? && s.calls[e.act.call].Cleared? && Stores(s.calls[e.act.call].mode) {
      CodeKeepsApart(s, e, k);
    } else if e.act.Go? && (s.calls[e.act.call].Cleared? || s.calls[e.act.call].Wiped?) {
      CooldownKeepsApart(s, e, k);
    } else {
      OthersKeepApart(s, e, k);
    }
  }

  // ---- What a step writes into the history ---------------------------------------------------------------

  predicate Goes(s: State, e: Event) {
    (e.act.Go? || e.act.Admit?) && e.act.call in s.calls
  }

  predicate Counts(s: State, e: Event) {
    Goes(s, e) && s.calls[e.act.call].Wrong?
  }

  predicate Erases(s: State, e: Event) {
    Goes(s, e) && Deletes(s.calls[e.act.call])
  }

  predicate ComparesWrong(s: State, e: Event) {
    && Goes(s, e) && s.calls[e.act.call].Unlocked? && CodeAlive(s.keys, e.at)
    && s.keys.code.value.value != s.calls[e.act.call].otp
  }

  predicate Issues(s: State, e: Event) {
    Goes(s, e) && s.calls[e.act.call].Cleared? && Stores(s.calls[e.act.call].mode)
  }

  /** INCR finds that the attempts key has died before the code. */
  predicate Expires(s: State, e: Event) {
    Counts(s, e) && Remembers(s, e.at) && !AttemptsAlive(s.keys.attempts, e.at)
  }

  predicate Loses(s: State, e: Event) {
    Expires(s, e) || (Erases(s, e) && Remembers(s, e.at))
  }

  lemma HistoryAfter(s: State, e: Event)
    requires Enabled(s, e)
    ensures var s' := Next(s, e);
            && s'.clock == e.at
            && s'.wrong == Noted(s.wrong, ComparesWrong(s, e), e.at, Current(s))
            && s'.lost == Noted(s.lost, Loses(s, e), e.at, Current(s))
            && s'.expired == Noted(s.expired, Expires(s, e), e.at, Current(s))
            && s'.issued == if Issues(s, e) then s.issued + [e.at] else s.issued
  {
  }
}
