/** The auth service over the keys of all phones. A call here meets no other; Otp says what overlapping calls do. */
module OtpService {
  import opened Common
  import opened Otp

  predicate IsDigit(c: char) { '0' <= c <= '9' }

  /** An optional '+', a digit that is not 0, and one to fourteen more digits. */
  predicate E164(phone: Phone) {
    if phone != "" && phone[0] == '+' then Subscriber(phone[1..]) else Subscriber(phone)
  }

  predicate Subscriber(digits: string) {
    2 <= |digits| <= 15 && digits[0] != '0' && forall i :: 0 <= i < |digits| ==> IsDigit(digits[i])
  }

  /** The same, spelled out: what a phone number is made of. */
  ghost predicate IsPhoneNumber(phone: Phone) {
    exists first: char, rest: string :: MadeOf(phone, first, rest)
  }

  ghost predicate MadeOf(phone: Phone, first: char, rest: string) {
    && (phone == [first] + rest || phone == "+" + [first] + rest)
    && '1' <= first <= '9' && 1 <= |rest| <= 14
    && forall c :: c in rest ==> '0' <= c <= '9'
  }

  lemma DigitsMade(phone: Phone, digits: string)
    requires Subscriber(digits)
    requires phone == digits || phone == "+" + digits
    ensures MadeOf(phone, digits[0], digits[1..])
  {
    assert IsDigit(digits[0]) && digits == [digits[0]] + digits[1..];
    assert "+" + digits == "+" + [digits[0]] + digits[1..];
    forall c | c in digits[1..]
      ensures '0' <= c <= '9'
    {
      var i :| 0 <= i < |digits[1..]| && digits[1..][i] == c;
      assert IsDigit(digits[i + 1]);
    }
  }

  lemma E164Iff(phone: Phone)
    ensures E164(phone) <==> IsPhoneNumber(phone)
  {
    if E164(phone) {
      if phone[0] == '+' {
        DigitsMade(phone, phone[1..]);
        assert phone == "+" + phone[1..];
      } else {
        DigitsMade(phone, phone);
      }
    }
    if IsPhoneNumber(phone) {
      var first: char, rest: string :| MadeOf(phone, first, rest);
      var digits := [first] + rest;
      assert phone == digits || (phone[0] == '+' && phone[1..] == digits);
      forall i | 0 <= i < |digits|
        ensures IsDigit(digits[i])
      {
        assert i > 0 ==> digits[i] == rest[i - 1] && rest[i - 1] in rest;
      }
    }
  }

  class AuthService {
    var codes: map<Phone, Code>          // otp:code:<phone>
    var cooldowns: map<Phone, int>       // otp:cooldown:<phone>
    var attempts: map<Phone, Attempts>   // otp:attempts:<phone>
    var locks: map<Phone, int>           // otp:lock:<phone>
    var accounts: map<Phone, bool>       // the users table: is the account active?

    constructor (accounts: map<Phone, bool>)
      ensures codes == map[] && cooldowns == map[] && attempts == map[] && locks == map[] && this.accounts == accounts
    {
      codes, cooldowns, attempts, locks, this.accounts := map[], map[], map[], map[], accounts;
    }

    static function At<V>(m: map<Phone, V>, phone: Phone): Option<V> {
      if phone in m then Some(m[phone]) else None
    }

    function KeysOf(phone: Phone): Keys
      reads this
    {
      Keys(At(codes, phone), At(cooldowns, phone), At(attempts, phone), At(locks, phone))
    }

    /** Only the keys of this phone may differ. */
    twostate predicate OthersKept(phone: Phone)
      reads this
    {
      forall p :: p != phone ==> KeysOf(p) == old(KeysOf(p))
    }

    method RequestOtp(phone: Phone, now: int, otp: string, mode: Mode) returns (r: Result<Issue, RequestError>)
      modifies this`codes, this`cooldowns, this`attempts
      ensures !E164(phone) ==> r == Err(InvalidPhone) && KeysOf(phone) == old(KeysOf(phone))
      ensures E164(phone) ==> (r, KeysOf(phone)) == RequestAlone(old(KeysOf(phone)), now, otp, mode)
      ensures OthersKept(phone)
      // The answer and the keys, spelled out: a cooldown counts while half a second of it is left.
      ensures var cooling := phone in old(cooldowns) && old(cooldowns)[phone] - now >= 500;
              && (r == Err(InvalidPhone) <==> !IsPhoneNumber(phone))
              && (r.Err? && r != Err(InvalidPhone) <==> IsPhoneNumber(phone) && cooling)
              && (r.Err? && r != Err(InvalidPhone) ==> r.error.retryAfter == (old(cooldowns)[phone] - now + 500) / 1000)
      ensures r.Err? ==> codes == old(codes) && cooldowns == old(cooldowns) && attempts == old(attempts)
      ensures r.Ok? ==> && r.value.expiresIn == 300 && r.value.resendAfter == 60
                        && r.value.devOtp == (if mode.production then None else Some(otp))
                        && cooldowns == old(cooldowns)[phone := now + 60000]
      ensures r.Ok? && mode.firebase && mode.production ==> codes == old(codes) && attempts == old(attempts)
      ensures r.Ok? && !(mode.firebase && mode.production) ==>
                codes == old(codes)[phone := Code(otp, now + 300000)] && attempts == old(attempts) - {phone}
    {
      E164Iff(phone);
      if !E164(phone) {
        return Err(InvalidPhone);
      }
      var cooldownTtl := Ttl(At(cooldowns, phone), now);
      if cooldownTtl > 0 {
        return Err(ResendTooSoon(cooldownTtl));
      }
      if mode.firebase && mode.production {
        cooldowns := cooldowns[phone := now + 1000 * RESEND_COOLDOWN_SECONDS];
        return Ok(Issue.Issue(OTP_TTL_SECONDS, RESEND_COOLDOWN_SECONDS, None));
      }
      codes := codes[phone := Code(otp, now + 1000 * OTP_TTL_SECONDS)];
      attempts := attempts - {phone};
      cooldowns := cooldowns[phone := now + 1000 * RESEND_COOLDOWN_SECONDS];
      return Ok(Issue.Issue(OTP_TTL_SECONDS, RESEND_COOLDOWN_SECONDS, if mode.production then None else Some(otp)));
    }

    /** INCR on the attempts key. */
    method Incr(phone: Phone, now: int) returns (n: nat)
      modifies this`attempts
      ensures attempts == old(attempts)[phone := if AttemptsAlive(At(old(attempts), phone), now)
                                                 then Attempts(old(attempts)[phone].count + 1, old(attempts)[phone].expires)
                                                 else Attempts(1, None)]
      ensures n == attempts[phone].count
    {
      var counter := if AttemptsAlive(At(attempts, phone), now)
                     then Attempts(attempts[phone].count + 1, attempts[phone].expires)
                     else Attempts(1, None);
      attempts := attempts[phone := counter];
      n := counter.count;
    }

    /** A lock counts while half a second of it is left. */
    ghost predicate LockedAt(phone: Phone, now: int)
      reads this
    {
      phone in locks && locks[phone] - now >= 500
    }

    ghost predicate HasCode(phone: Phone, now: int)
      reads this
    {
      phone in codes && now < codes[phone].expires
    }

    /** The number of this wrong guess: the guesses counted by a living attempts key, and this one. */
    ghost function GuessNumber(phone: Phone, now: int): nat
      reads this
    {
      if phone in attempts && (attempts[phone].expires.None? || now < attempts[phone].expires.value)
      then attempts[phone].count + 1 else 1
    }

    /** The branch of a wrong guess: count it, and lock the phone at the third. */
    method WrongGuess(phone: Phone, now: int) returns (r: Result<(), LoginError>)
      requires HasCode(phone, now) && (phone in attempts ==> attempts[phone].count >= 1)
      modifies this`codes, this`attempts, this`locks
      ensures var a := Counted(old(KeysOf(phone)), now);
              && KeysOf(phone) == (if a.count >= MAX_OTP_ATTEMPTS then Locked(old(KeysOf(phone)), now)
                                   else old(KeysOf(phone)).(attempts := Some(a)))
              && r == Err(if a.count >= MAX_OTP_ATTEMPTS then AccountLocked(After(now, LOCKOUT_SECONDS)) else Wrongly(a.count))
      ensures OthersKept(phone) && (phone in attempts ==> attempts[phone].count >= 1)
      ensures var n := old(GuessNumber(phone, now));
              if n < 3 then
                && r == Err(InvalidOtp(3 - n)) && codes == old(codes) && locks == old(locks)
                && phone in attempts && attempts[phone].count == n
              else
                && r == Err(AccountLocked(now + 900000)) && locks == old(locks)[phone := now + 900000]
                && codes == old(codes) - {phone} && attempts == old(attempts) - {phone}
    {
      var count := Incr(phone, now);
      if count == 1 {
        var otpTtl := Ttl(Some(codes[phone].expires), now);
        if otpTtl > 0 {
          attempts := attempts[phone := attempts[phone].(expires := Some(now + otpTtl * 1000))];
        }
      }
      if count >= MAX_OTP_ATTEMPTS {
        locks := locks[phone := now + 1000 * LOCKOUT_SECONDS];
        codes := codes - {phone};
        attempts := attempts - {phone};
        return Err(AccountLocked(now + LOCKOUT_SECONDS * 1000));
      }
      return Err(InvalidOtp(Max(0, MAX_OTP_ATTEMPTS - count)));
    }

    method Login(phone: Phone, otp: string, now: int) returns (r: Result<(), LoginError>)
      requires phone in attempts ==> attempts[phone].count >= 1
      modifies this`codes, this`attempts, this`locks, this`accounts
      ensures var suspended := phone in old(accounts) && !old(accounts)[phone];
              (r, KeysOf(phone)) == LoginAlone(old(KeysOf(phone)), now, otp, suspended)
      ensures OthersKept(phone) && (phone in attempts ==> attempts[phone].count >= 1)
      ensures accounts == if r.Ok? && phone !in old(accounts) then old(accounts)[phone := true] else old(accounts)
      // Who gets in, and what everybody else is told.
      ensures var right := old(!LockedAt(phone, now) && HasCode(phone, now)) && old(codes)[phone].value == otp;
              && (r.Ok? <==> right && (phone in old(accounts) ==> old(accounts)[phone]))
              && (r == Err(AccountSuspended) <==> right && phone in old(accounts) && !old(accounts)[phone])
              && (right ==> codes == old(codes) - {phone} && attempts == old(attempts) - {phone} && locks == old(locks))
      ensures r.Ok? ==> phone in accounts && accounts[phone]
      ensures r == Err(OtpExpired) <==> old(!LockedAt(phone, now) && !HasCode(phone, now))
      ensures var n := old(GuessNumber(phone, now));
              var wrong := old(!LockedAt(phone, now) && HasCode(phone, now)) && old(codes)[phone].value != otp;
              && (r.Err? && r.error.InvalidOtp? <==> wrong && n < 3)
              && (r.Err? && r.error.InvalidOtp? ==>
                    && r.error.attemptsRemaining == 3 - n && codes == old(codes) && locks == old(locks)
                    && phone in attempts && attempts[phone].count == n)
              && (r.Err? && r.error.AccountLocked? <==> old(LockedAt(phone, now)) || (wrong && n >= 3))
              && (wrong && n >= 3 ==>
                    && r.error.unlockAt == now + 900000 && locks == old(locks)[phone := now + 900000]
                    && codes == old(codes) - {phone} && attempts == old(attempts) - {phone})
      ensures old(LockedAt(phone, now)) ==> r.error.unlockAt == now + (old(locks)[phone] - now + 500) / 1000 * 1000
      ensures r == Err(OtpExpired) || old(LockedAt(phone, now)) ==> codes == old(codes) && attempts == old(attempts) && locks == old(locks)
    {
      var lockTtl := Ttl(At(locks, phone), now);
      if lockTtl > 0 {
        return Err(AccountLocked(now + lockTtl * 1000));
      }
      if phone !in codes || now >= codes[phone].expires {
        return Err(OtpExpired);
      }
      if codes[phone].value != otp {
        r := WrongGuess(phone, now);
        return r;
      }
      codes := codes - {phone};
      attempts := attempts - {phone};
      if phone !in accounts {
        accounts := accounts[phone := true];
      }
      if !accounts[phone] {
        return Err(AccountSuspended);
      }
      return Ok(());
    }
  }
}
