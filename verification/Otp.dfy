/**
 * Login by one-time code: four expiring keys per phone (code, cooldown, attempts, lock), used by calls that overlap.
 * Every Redis command is a step of its own, so commands of other calls may come between any two commands of a call.
 * The clock counts milliseconds; TTL answers are whole seconds, rounded as Redis rounds them.
 */
module Otp {
  import opened Common

  const OTP_TTL_SECONDS := 300
  const RESEND_COOLDOWN_SECONDS := 60
  const MAX_OTP_ATTEMPTS := 3
  const LOCKOUT_SECONDS := 900

  type Phone = string

  datatype Code = Code(value: string, expires: int)

  /** INCR makes the key without an expiry; EXPIRE may follow. */
  datatype Attempts = Attempts(count: nat, expires: Option<int>)

  /** The keys of one phone; cooldown and lock are given by their expiry. A key is alive strictly before it. */
  datatype Keys = Keys(code: Option<Code>, cooldown: Option<int>, attempts: Option<Attempts>, lock: Option<int>)

  const NO_KEYS := Keys(None, None, None, None)

  /** TTL: the remaining time to the nearest second; negative when there is no such key. */
  function Ttl(expires: Option<int>, now: int): int {
    if expires.Some? && now < expires.value then (expires.value - now + 500) / 1000 else -2
  }

  /** The expiry set by EX or EXPIRE. */
  function After(now: int, seconds: int): int {
    now + seconds * 1000
  }

  predicate CodeAlive(k: Keys, now: int) {
    k.code.Some? && now < k.code.value.expires
  }

  predicate AttemptsAlive(a: Option<Attempts>, now: int) {
    a.Some? && (a.value.expires.Some? ==> now < a.value.expires.value)
  }

  function CodeTtl(k: Keys, now: int): int {
    Ttl(if k.code.Some? then Some(k.code.value.expires) else None, now)
  }

  datatype Mode = Mode(firebase: bool, production: bool)

  /** Whether the service keeps the code itself. */
  predicate Stores(mode: Mode) {
    !(mode.firebase && mode.production)
  }

  // ---- Overlapping calls ---------------------------------------------------------------------------------

  type CallId = nat

  /** The next command of a call. A code is named by its position in the history of issued codes. */
  datatype Call =
    | Cleared(otp: string, mode: Mode)   // a request that found the cooldown over: SET of the code
    | Stored                             // DEL of the attempts
    | Wiped                              // SET of the cooldown
    | Unlocked(otp: string)              // a login that found no lock: GET of the code
    | Wrong(code: nat)                   // the code read differs from the one given: INCR
    | First                              // INCR answered 1: TTL of the code
    | Timed(code: nat, ttl: nat)         // EXPIRE by the TTL that code had
    | Third(code: nat)                   // INCR answered 3 or more: SET of the lock
    | Barred(code: nat)                  // DEL of the code
    | Dropped                            // DEL of the attempts
    | Right(code: nat)                   // the code read is the one given: DEL of the code
    | Passed                             // DEL of the attempts, then the answer

  datatype Act =
    | AskCode(call: CallId, otp: string, mode: Mode)   // TTL of the cooldown
    | TryLogin(call: CallId, otp: string)              // TTL of the lock
    | Go(call: CallId)                                 // the next command of the call
    | Admit(call: CallId, suspended: bool)             // the last command of a login that passed; refuses a suspended account

  datatype Event = Event(at: nat, act: Act)

  datatype Mark = Mark(at: int, code: nat)

  /** The marks that name code `c`. */
  function Tally(marks: seq<Mark>, c: nat): nat {
    if marks == [] then 0
    else Tally(marks[..|marks| - 1], c) + if marks[|marks| - 1].code == c then 1 else 0
  }

  /**
   * The keys and calls of one phone, with the history so far: when codes were stored, which guesses were compared
   * with which code and were wrong or right, when the count of wrong guesses of a living code was lost, and when it
   * was lost because the attempts key had died before the code.
   */
  datatype State = State(clock: nat, keys: Keys, calls: map<CallId, Call>, issued: seq<int>,
                         wrong: seq<Mark>, matched: seq<Mark>, lost: seq<Mark>, expired: seq<Mark>)

  const START := State(0, NO_KEYS, map[], [], [], [], [], [])

  /** The code issued last. */
  function Current(s: State): nat {
    if s.issued == [] then 0 else |s.issued| - 1
  }

  predicate Enabled(s: State, e: Event) {
    && s.clock <= e.at
    && match e.act
       case AskCode(c, _, _) => c !in s.calls
       case TryLogin(c, _) => c !in s.calls
       case Go(c) => c in s.calls && !s.calls[c].Passed?
       case Admit(c, _) => c in s.calls && s.calls[c].Passed?
  }

  /** Some guess was compared wrongly with the living code, and there is an attempts key for it. */
  predicate Remembers(s: State, now: int) {
    CodeAlive(s.keys, now) && s.keys.attempts.Some? && Tally(s.wrong, Current(s)) > 0
  }

  function Noted(marks: seq<Mark>, noted: bool, at: int, c: nat): seq<Mark> {
    if noted then marks + [Mark(at, c)] else marks
  }

  /** DEL of the attempts. */
  function Forgetting(s: State, now: int): State {
    s.(keys := s.keys.(attempts := None), lost := Noted(s.lost, Remembers(s, now), now, Current(s)))
  }

  /** INCR: an expired key counts from 1 again. */
  function Incremented(a: Option<Attempts>, now: int): Attempts {
    if AttemptsAlive(a, now) then Attempts(a.value.count + 1, a.value.expires) else Attempts(1, None)
  }

  function AfterIncr(calls: map<CallId, Call>, c: CallId, code: nat, n: nat): map<CallId, Call> {
    if n >= MAX_OTP_ATTEMPTS then calls[c := Third(code)] else if n == 1 then calls[c := First] else calls - {c}
  }

  function Counting(s: State, c: CallId, code: nat, now: int): State {
    var a := Incremented(s.keys.attempts, now);
    var late := Remembers(s, now) && !AttemptsAlive(s.keys.attempts, now);
    s.(keys := s.keys.(attempts := Some(a)), calls := AfterIncr(s.calls, c, code, a.count),
       lost := Noted(s.lost, late, now, Current(s)), expired := Noted(s.expired, late, now, Current(s)))
  }

  /** EXPIRE does nothing to a key that is gone. */
  function Expiring(a: Option<Attempts>, now: int, ttl: nat): Option<Attempts> {
    if AttemptsAlive(a, now) then Some(a.value.(expires := Some(After(now, ttl)))) else a
  }

  function Reading(s: State, c: CallId, otp: string, now: int): State {
    if !CodeAlive(s.keys, now) then s.(calls := s.calls - {c})
    else if s.keys.code.value.value != otp then s.(calls := s.calls[c := Wrong(Current(s))], wrong := s.wrong + [Mark(now, Current(s))])
    else s.(calls := s.calls[c := Right(Current(s))], matched := s.matched + [Mark(now, Current(s))])
  }

  /** The next command of a call. */
  function Command(s: State, c: CallId, now: nat): State
    requires c in s.calls
  {
    match s.calls[c]
    case Cleared(otp, mode) =>
      if Stores(mode) then
        s.(keys := s.keys.(code := Some(Code(otp, After(now, OTP_TTL_SECONDS)))), issued := s.issued + [now], calls := s.calls[c := Stored])
      else s.(keys := s.keys.(cooldown := Some(After(now, RESEND_COOLDOWN_SECONDS))), calls := s.calls - {c})
    case Stored => Forgetting(s, now).(calls := s.calls[c := Wiped])
    case Wiped => s.(keys := s.keys.(cooldown := Some(After(now, RESEND_COOLDOWN_SECONDS))), calls := s.calls - {c})
    case Unlocked(otp) => Reading(s, c, otp, now)
    case Wrong(code) => Counting(s, c, code, now)
    case First =>
      var ttl := CodeTtl(s.keys, now);
      s.(calls := if ttl > 0 then s.calls[c := Timed(Current(s), ttl)] else s.calls - {c})
    case Timed(_, ttl) => s.(keys := s.keys.(attempts := Expiring(s.keys.attempts, now, ttl)), calls := s.calls - {c})
    case Third(code) => s.(keys := s.keys.(lock := Some(After(now, LOCKOUT_SECONDS))), calls := s.calls[c := Barred(code)])
    case Barred(_) => s.(keys := s.keys.(code := None), calls := s.calls[c := Dropped])
    case Dropped => Forgetting(s, now).(calls := s.calls - {c})
    case Right(_) => s.(keys := s.keys.(code := None), calls := s.calls[c := Passed])
    case Passed => Forgetting(s, now).(calls := s.calls - {c})
  }

  function Next(s: State, e: Event): State
    requires Enabled(s, e)
  {
    var s' := s.(clock := e.at);
    match e.act
    case AskCode(c, otp, mode) => if Ttl(s.keys.cooldown, e.at) > 0 then s' else s'.(calls := s.calls[c := Cleared(otp, mode)])
    case TryLogin(c, otp) => if Ttl(s.keys.lock, e.at) > 0 then s' else s'.(calls := s.calls[c := Unlocked(otp)])
    case Go(c) => Command(s', c, e.at)
    case Admit(c, _) => Command(s', c, e.at)
  }

  /** What a login is told by the step that ends it; nothing while it goes on. A request for a code is no login. */
  function Answer(s: State, e: Event): Option<Result<(), LoginError>>
    requires Enabled(s, e)
  {
    match e.act
    case AskCode(_, _, _) => None
    case TryLogin(_, _) =>
      var lockTtl := Ttl(s.keys.lock, e.at);
      if lockTtl > 0 then Some(Err(AccountLocked(After(e.at, lockTtl)))) else None
    case Go(c) => AnswerOf(s, s.calls[c], e.at)
    case Admit(_, suspended) => Some(if suspended then Err(AccountSuspended) else Ok(()))
  }

  function AnswerOf(s: State, call: Call, now: int): Option<Result<(), LoginError>> {
    match call
    case Unlocked(_) => if CodeAlive(s.keys, now) then None else Some(Err(OtpExpired))
    case Wrong(_) =>
      var count := Incremented(s.keys.attempts, now).count;
      if count == 1 || count >= MAX_OTP_ATTEMPTS then None else Some(Err(Wrongly(count)))
    case First => if CodeTtl(s.keys, now) > 0 then None else Some(Err(Wrongly(1)))
    case Timed(_, _) => Some(Err(Wrongly(1)))
    case Dropped => Some(Err(AccountLocked(After(now, LOCKOUT_SECONDS))))
    case _ => None
  }

  /** The answer to the `count`-th wrong guess, if it does not lock the phone. */
  function Wrongly(count: nat): LoginError {
    InvalidOtp(Max(0, MAX_OTP_ATTEMPTS - count))
  }

  predicate IsLogin(call: Call) {
    !call.Cleared? && !call.Stored? && !call.Wiped?
  }

  /** Every login is answered, once: by the step that ends it. */
  lemma AnsweredWhenDone(s: State, e: Event)
    requires Enabled(s, e) && (e.act.TryLogin? || (e.act.call in s.calls && IsLogin(s.calls[e.act.call])))
    ensures Answer(s, e).Some? <==> e.act.call !in Next(s, e).calls
  {
  }

  ghost predicate CanRun(s: State, es: seq<Event>)
    decreases |es|, 0
  {
    es == [] || (CanRun(s, es[..|es| - 1]) && Enabled(Run(s, es[..|es| - 1]), es[|es| - 1]))
  }

  ghost function Run(s: State, es: seq<Event>): State
    requires CanRun(s, es)
    decreases |es|, 1
  {
    if es == [] then s else Next(Run(s, es[..|es| - 1]), es[|es| - 1])
  }

  /** At no point of the run are more than `k` calls of the phone in flight. With `k` 1, calls do not overlap. */
  ghost predicate AtMost(s: State, es: seq<Event>, k: nat)
    requires CanRun(s, es)
    decreases |es|
  {
    |Run(s, es).calls| <= k && (es != [] ==> AtMost(s, es[..|es| - 1], k))
  }

  lemma RunSnoc(s: State, es: seq<Event>, e: Event)
    requires CanRun(s, es) && Enabled(Run(s, es), e)
    ensures CanRun(s, es + [e]) && Run(s, es + [e]) == Next(Run(s, es), e)
  {
    assert (es + [e])[..|es|] == es;
  }

  lemma AtMostSnoc(s: State, es: seq<Event>, e: Event, k: nat)
    requires CanRun(s, es) && CanRun(s, es + [e]) && AtMost(s, es, k) && |Run(s, es + [e]).calls| <= k
    ensures AtMost(s, es + [e], k)
  {
    assert (es + [e])[..|es|] == es;
  }

  /** One more step, keeping to the limit. */
  lemma Extend(s: State, es: seq<Event>, r: State, e: Event, t: State, k: nat)
    requires CanRun(s, es) && AtMost(s, es, k) && Run(s, es) == r
    requires Enabled(r, e) && Next(r, e) == t && |t.calls| <= k
    ensures CanRun(s, es + [e]) && Run(s, es + [e]) == t && AtMost(s, es + [e], k)
  {
    RunSnoc(s, es, e);
    AtMostSnoc(s, es, e, k);
  }

  lemma {:induction false} RunConcat(s: State, a: seq<Event>, b: seq<Event>)
    requires CanRun(s, a) && CanRun(Run(s, a), b)
    ensures CanRun(s, a + b) && Run(s, a + b) == Run(Run(s, a), b)
    decreases |b|
  {
    if b == [] {
      assert a + b == a;
    } else {
      var n := |b| - 1;
      assert (a + b[..n]) + [b[n]] == a + b;
      RunConcat(s, a, b[..n]);
      RunSnoc(s, a + b[..n], b[n]);
    }
  }

  lemma {:induction false} AtMostConcat(s: State, a: seq<Event>, b: seq<Event>, k: nat)
    requires CanRun(s, a) && CanRun(Run(s, a), b) && CanRun(s, a + b)
    requires AtMost(s, a, k) && AtMost(Run(s, a), b, k)
    ensures AtMost(s, a + b, k)
    decreases |b|
  {
    RunConcat(s, a, b);
    if b == [] {
      assert a + b == a;
    } else {
      var n := |b| - 1;
      assert (a + b)[..|a + b| - 1] == a + b[..n];
      AtMostConcat(s, a, b[..n], k);
    }
  }

  lemma {:induction false} AtMostMore(s: State, es: seq<Event>, k: nat, m: nat)
    requires CanRun(s, es) && AtMost(s, es, k) && k <= m
    ensures AtMost(s, es, m)
    decreases |es|
  {
    if es != [] {
      AtMostMore(s, es[..|es| - 1], k, m);
    }
  }

  // ---- A call on its own ---------------------------------------------------------------------------------

  datatype RequestError = InvalidPhone | ResendTooSoon(retryAfter: int)

  datatype Issue = Issue(expiresIn: int, resendAfter: int, devOtp: Option<string>)

  datatype LoginError = AccountLocked(unlockAt: int) | OtpExpired | InvalidOtp(attemptsRemaining: int) | AccountSuspended

  /** What a request for a code has written in the end, once the cooldown is over. */
  function Issued(k: Keys, now: int, otp: string, mode: Mode): Keys {
    var cooled := k.(cooldown := Some(After(now, RESEND_COOLDOWN_SECONDS)));
    if !Stores(mode) then cooled
    else cooled.(code := Some(Code(otp, After(now, OTP_TTL_SECONDS))), attempts := None)
  }

  /** The attempts key after a wrong guess: INCR, and on the first one an EXPIRE by the TTL of the code. */
  function Counted(k: Keys, now: int): Attempts {
    var a := Incremented(k.attempts, now);
    var ttl := CodeTtl(k, now);
    if a.count == 1 && ttl > 0 then a.(expires := Some(After(now, ttl))) else a
  }

  function Locked(k: Keys, now: int): Keys {
    k.(lock := Some(After(now, LOCKOUT_SECONDS)), code := None, attempts := None)
  }

  function Accepted(k: Keys): Keys {
    k.(code := None, attempts := None)
  }

  /** `requestOtp` on valid phones with nothing in between; `otp` stands for the generated code. */
  function RequestAlone(k: Keys, now: int, otp: string, mode: Mode): (Result<Issue, RequestError>, Keys) {
    var cooldownTtl := Ttl(k.cooldown, now);
    if cooldownTtl > 0 then (Err(ResendTooSoon(cooldownTtl)), k)
    else (Ok(Issue(OTP_TTL_SECONDS, RESEND_COOLDOWN_SECONDS, if mode.production then None else Some(otp))),
          Issued(k, now, otp, mode))
  }

  /** `login` with nothing in between; `suspended` says whether the phone's account exists and is not active. */
  function LoginAlone(k: Keys, now: int, otp: string, suspended: bool): (Result<(), LoginError>, Keys) {
    var lockTtl := Ttl(k.lock, now);
    if lockTtl > 0 then (Err(AccountLocked(After(now, lockTtl))), k)
    else if !CodeAlive(k, now) then (Err(OtpExpired), k)
    else if k.code.value.value != otp then
      var a := Counted(k, now);
      if a.count >= MAX_OTP_ATTEMPTS then (Err(AccountLocked(After(now, LOCKOUT_SECONDS))), Locked(k, now))
      else (Err(Wrongly(a.count)), k.(attempts := Some(a)))
    else (if suspended then Err(AccountSuspended) else Ok(()), Accepted(k))
  }

  /** How many commands a call has left at most. */
  function Left(call: Call): nat {
    match call
    case Cleared(_, _) => 3
    case Stored => 2
    case Wiped => 1
    case Unlocked(_) => 5
    case Wrong(_) => 4
    case First => 2
    case Timed(_, _) => 1
    case Third(_) => 3
    case Barred(_) => 2
    case Dropped => 1
    case Right(_) => 2
    case Passed => 1
  }

  /** The next step of a call under way. */
  function Turn(s: State, c: CallId, suspended: bool): Act
    requires c in s.calls
  {
    if s.calls[c].Passed? then Admit(c, suspended) else Go(c)
  }

  /** The rest of a call that meets no other, all of it at one time. */
  function Alone(s: State, now: nat, c: CallId, suspended: bool): State
    requires s.clock <= now
    decreases if c in s.calls then Left(s.calls[c]) else 0
  {
    if c !in s.calls then s else Alone(Next(s, Event(now, Turn(s, c, suspended))), now, c, suspended)
  }

  /** What such a call is told in the end. */
  function AnswerAlone(s: State, now: nat, c: CallId, suspended: bool): Option<Result<(), LoginError>>
    requires s.clock <= now
    decreases if c in s.calls then Left(s.calls[c]) else 0
  {
    if c !in s.calls then None
    else
      var e := Event(now, Turn(s, c, suspended));
      if Answer(s, e).Some? then Answer(s, e) else AnswerAlone(Next(s, e), now, c, suspended)
  }

  /** It is a run, and never are more calls in flight than at its start. */
  lemma {:induction false} AloneRuns(s: State, now: nat, c: CallId, suspended: bool, k: nat) returns (es: seq<Event>)
    requires s.clock <= now && |s.calls| <= k
    ensures CanRun(s, es) && Run(s, es) == Alone(s, now, c, suspended) && AtMost(s, es, k)
    decreases if c in s.calls then Left(s.calls[c]) else 0
  {
    es := [];
    if c in s.calls {
      var e := Event(now, Turn(s, c, suspended));
      CommandShrinks(s, e, c);
      Extend(s, [], s, e, Next(s, e), k);
      var rest := AloneRuns(Next(s, e), now, c, suspended, k);
      RunConcat(s, [] + [e], rest);
      AtMostConcat(s, [] + [e], rest, k);
      es := [] + [e] + rest;
    }
  }

  lemma CommandShrinks(s: State, e: Event, c: CallId)
    requires Enabled(s, e) && (e.act.Go? || e.act.Admit?) && e.act.call == c
    ensures |Next(s, e).calls| <= |s.calls|
    ensures c in Next(s, e).calls ==> Left(Next(s, e).calls[c]) < Left(s.calls[c])
  {
    MapSize(s.calls);
    MapSize(Next(s, e).calls);
    assert Next(s, e).calls.Keys <= s.calls.Keys;
    SubsetSmaller(Next(s, e).calls.Keys, s.calls.Keys);
  }

  /** A state with call `c` at some point, and what it is compared with: the calls of `s` and one more. */
  ghost predicate At(t: State, s: State, c: CallId, call: Call) {
    t.clock == s.clock && t.calls == s.calls[c := call]
  }

  /** The last commands of a request. */
  lemma StoredAlone(t: State, s: State, c: CallId, suspended: bool)
    requires c !in s.calls && At(t, s, c, Stored)
    ensures Alone(t, t.clock, c, suspended) ==
            t.(calls := s.calls, keys := t.keys.(attempts := None, cooldown := Some(After(t.clock, RESEND_COOLDOWN_SECONDS))),
               lost := Noted(t.lost, Remembers(t, t.clock), t.clock, Current(t)))
  {
    var u := Next(t, Event(t.clock, Go(c)));
    UpdateTwice(s.calls, c, Stored, Wiped);
    UpdateThenRemove(s.calls, c, Wiped);
    assert At(u, s, c, Wiped);
    assert Alone(u, t.clock, c, suspended) == Next(u, Event(t.clock, Go(c)));
  }

  /** The last commands of a login that locks the phone. */
  lemma ThirdAlone(t: State, s: State, c: CallId, code: nat, suspended: bool)
    requires c !in s.calls && At(t, s, c, Third(code))
    ensures var r := Alone(t, t.clock, c, suspended); r.calls == s.calls && r.keys == Locked(t.keys, t.clock)
    ensures AnswerAlone(t, t.clock, c, suspended) == Some(Err(AccountLocked(After(t.clock, LOCKOUT_SECONDS))))
  {
    var u := Next(t, Event(t.clock, Go(c)));
    UpdateTwice(s.calls, c, Third(code), Barred(code));
    assert At(u, s, c, Barred(code));
    var v := Next(u, Event(t.clock, Go(c)));
    UpdateTwice(s.calls, c, Barred(code), Dropped);
    assert At(v, s, c, Dropped);
    UpdateThenRemove(s.calls, c, Dropped);
    assert Alone(v, t.clock, c, suspended) == Next(v, Event(t.clock, Go(c)));
    assert AnswerAlone(v, t.clock, c, suspended) == Some(Err(AccountLocked(After(t.clock, LOCKOUT_SECONDS))));
    assert AnswerAlone(u, t.clock, c, suspended) == AnswerAlone(v, t.clock, c, suspended);
  }

  /** The last commands of a first wrong guess. */
  lemma FirstAlone(t: State, s: State, c: CallId, suspended: bool)
    requires c !in s.calls && At(t, s, c, First) && AttemptsAlive(t.keys.attempts, t.clock)
    ensures var r := Alone(t, t.clock, c, suspended);
            var ttl := CodeTtl(t.keys, t.clock);
            && r == t.(calls := s.calls, keys := t.keys.(attempts := if ttl > 0 then Expiring(t.keys.attempts, t.clock, ttl) else t.keys.attempts))
            && AnswerAlone(t, t.clock, c, suspended) == Some(Err(Wrongly(1)))
  {
    var u, ttl := Next(t, Event(t.clock, Go(c))), CodeTtl(t.keys, t.clock);
    UpdateThenRemove(s.calls, c, First);
    if ttl > 0 {
      UpdateTwice(s.calls, c, First, Timed(Current(t), ttl));
      UpdateThenRemove(s.calls, c, Timed(Current(t), ttl));
      assert At(u, s, c, Timed(Current(t), ttl));
      assert Alone(u, t.clock, c, suspended) == Next(u, Event(t.clock, Go(c)));
    }
  }

  /** A wrong guess from INCR on. */
  lemma WrongAlone(t: State, s: State, c: CallId, code: nat, suspended: bool)
    requires c !in s.calls && At(t, s, c, Wrong(code))
    ensures var r := Alone(t, t.clock, c, suspended);
            var a := Counted(t.keys, t.clock);
            && r.calls == s.calls
            && r.keys == (if a.count >= MAX_OTP_ATTEMPTS then Locked(t.keys, t.clock) else t.keys.(attempts := Some(a)))
            && AnswerAlone(t, t.clock, c, suspended) ==
               Some(Err(if a.count >= MAX_OTP_ATTEMPTS then AccountLocked(After(t.clock, LOCKOUT_SECONDS)) else Wrongly(a.count)))
    ensures Counted(t.keys, t.clock).count < MAX_OTP_ATTEMPTS ==>
              var late := Remembers(t, t.clock) && !AttemptsAlive(t.keys.attempts, t.clock);
              Alone(t, t.clock, c, suspended) ==
              t.(calls := s.calls, keys := t.keys.(attempts := Some(Counted(t.keys, t.clock))),
                 lost := Noted(t.lost, late, t.clock, Current(t)), expired := Noted(t.expired, late, t.clock, Current(t)))
  {
    var u, n := Next(t, Event(t.clock, Go(c))), Incremented(t.keys.attempts, t.clock).count;
    if n >= MAX_OTP_ATTEMPTS {
      UpdateTwice(s.calls, c, Wrong(code), Third(code));
      ThirdAlone(u, s, c, code, suspended);
    } else if n == 1 {
      UpdateTwice(s.calls, c, Wrong(code), First);
      FirstAlone(u, s, c, suspended);
    } else {
      UpdateThenRemove(s.calls, c, Wrong(code));
    }
  }

  lemma RightAlone(t: State, s: State, c: CallId, code: nat, suspended: bool)
    requires c !in s.calls && At(t, s, c, Right(code))
    ensures var r := Alone(t, t.clock, c, suspended); r.calls == s.calls && r.keys == Accepted(t.keys)
    ensures AnswerAlone(t, t.clock, c, suspended) == Some(if suspended then Err(AccountSuspended) else Ok(()))
  {
    var u := Next(t, Event(t.clock, Go(c)));
    UpdateTwice(s.calls, c, Right(code), Passed);
    UpdateThenRemove(s.calls, c, Passed);
    assert At(u, s, c, Passed);
    assert Alone(u, t.clock, c, suspended) == Next(u, Event(t.clock, Admit(c, suspended)));
  }

  /** After the comparison nothing more is compared. */
  lemma {:induction false} AloneComparesNoMore(s: State, now: nat, c: CallId, suspended: bool)
    requires s.clock <= now && (c in s.calls ==> !s.calls[c].Unlocked?)
    ensures Alone(s, now, c, suspended).matched == s.matched && Alone(s, now, c, suspended).wrong == s.wrong
    decreases if c in s.calls then Left(s.calls[c]) else 0
  {
    if c in s.calls {
      var e := Event(now, Turn(s, c, suspended));
      CommandShrinks(s, e, c);
      AloneComparesNoMore(Next(s, e), now, c, suspended);
    }
  }

  /** A login that meets no other call: its commands leave the keys, and give the answer, that `LoginAlone` says. */
  lemma LoginAloneIsSteps(s: State, now: nat, c: CallId, otp: string, suspended: bool)
    requires s.clock <= now && c !in s.calls
    ensures var (r, k) := LoginAlone(s.keys, now, otp, suspended);
            var tried := Next(s, Event(now, TryLogin(c, otp)));
            && Alone(tried, now, c, suspended).keys == k && Alone(tried, now, c, suspended).calls == s.calls
            && (if c in tried.calls then AnswerAlone(tried, now, c, suspended) else Answer(s, Event(now, TryLogin(c, otp)))) == Some(r)
            && (r.Err? && r.error.AccountLocked? && c !in tried.calls <==> Ttl(s.keys.lock, now) > 0)
            && (r.Ok? || r == Err(AccountSuspended) <==> Alone(tried, now, c, suspended).matched != s.matched)
            && (r.Err? && r.error.InvalidOtp? ==> Alone(tried, now, c, suspended).wrong == s.wrong + [Mark(now, Current(s))])
  {
    var tried := Next(s, Event(now, TryLogin(c, otp)));
    if Ttl(s.keys.lock, now) <= 0 {
      var read := Next(tried, Event(now, Go(c)));
      AloneComparesNoMore(read, now, c, suspended);
      UpdateThenRemove(s.calls, c, Unlocked(otp));
      if CodeAlive(s.keys, now) {
        if s.keys.code.value.value == otp {
          UpdateTwice(s.calls, c, Unlocked(otp), Right(Current(s)));
          RightAlone(read, s.(clock := now), c, Current(s), suspended);
        } else {
          UpdateTwice(s.calls, c, Unlocked(otp), Wrong(Current(s)));
          WrongAlone(read, s.(clock := now), c, Current(s), suspended);
        }
      }
    }
  }

  /** Likewise for a request. */
  lemma RequestAloneIsSteps(s: State, now: nat, c: CallId, otp: string, mode: Mode)
    requires s.clock <= now && c !in s.calls
    ensures var (r, k) := RequestAlone(s.keys, now, otp, mode);
            var asked := Next(s, Event(now, AskCode(c, otp, mode)));
            && (r.Err? <==> c !in asked.calls)
            && Alone(asked, now, c, false).keys == k && Alone(asked, now, c, false).calls == s.calls
  {
    var asked := Next(s, Event(now, AskCode(c, otp, mode)));
    if Ttl(s.keys.cooldown, now) <= 0 {
      var stored := Next(asked, Event(now, Go(c)));
      UpdateThenRemove(s.calls, c, Cleared(otp, mode));
      if Stores(mode) {
        UpdateTwice(s.calls, c, Cleared(otp, mode), Stored);
        StoredAlone(stored, s.(clock := now), c, false);
      }
    }
  }
}
