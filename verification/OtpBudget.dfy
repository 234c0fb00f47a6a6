/**
 * Keeping a budget over a history: each mark of one kind is paid from a pot, marks of another kind fill the pot
 * again, and each new code starts a pot of its own. What holds of every step then bounds the marks of one code, and
 * those of a window of time.
 */
module OtpBudget {
  import opened Common
  import opened Otp
  import opened Windows

  function Times(marks: seq<Mark>): (ts: seq<int>)
    ensures |ts| == |marks| && forall i :: 0 <= i < |marks| ==> ts[i] == marks[i].at
  {
    seq(|marks|, i requires 0 <= i < |marks| => marks[i].at)
  }

  lemma TallySnoc(marks: seq<Mark>, m: Mark, c: nat)
    ensures Tally(marks + [m], c) == Tally(marks, c) + if m.code == c then 1 else 0
  {
    assert (marks + [m])[..|marks|] == marks;
  }

  ghost predicate Known(marks: seq<Mark>, codes: nat) {
    forall i :: 0 <= i < |marks| ==> marks[i].code < codes
  }

  lemma {:induction false} TallyNone(marks: seq<Mark>, c: nat)
    requires Known(marks, c)
    ensures Tally(marks, c) == 0
  {
    if marks != [] {
      TallyNone(marks[..|marks| - 1], c);
    }
  }

  lemma {:induction false} TallyDistinct(marks: seq<Mark>, c: nat)
    requires forall i, j :: 0 <= i < j < |marks| ==> marks[i].code < marks[j].code
    ensures Tally(marks, c) <= 1
  {
    if marks != [] {
      var init := marks[..|marks| - 1];
      TallyDistinct(init, c);
      if marks[|marks| - 1].code == c {
        TallyNone(init, c);
      }
    }
  }

  /** What a budget looks at: the marks paid for, the marks that earn, and the pot of the current code. */
  datatype View = View(clock: int, issued: seq<int>, paid: seq<Mark>, earned: seq<Mark>, pot: int)

  function Cur(v: View): nat {
    if v.issued == [] then 0 else |v.issued| - 1
  }

  function One(b: bool): nat {
    if b then 1 else 0
  }

  /** A step that issues no code: a mark costs 1, and an earning mark brings `rate`. */
  ghost predicate Pays(v: View, w: View, pays: bool, earns: bool, rate: nat) {
    && v.clock <= w.clock && w.issued == v.issued && w.pot >= 0
    && w.paid == Noted(v.paid, pays, w.clock, Cur(v)) && w.earned == Noted(v.earned, earns, w.clock, Cur(v))
    && w.pot + One(pays) <= v.pot + if earns then rate else 0
  }

  /** A step that issues a code, with a pot of at most `full`. */
  ghost predicate Starts(v: View, w: View, full: nat) {
    && v.clock <= w.clock && w.issued == v.issued + [w.clock] && w.paid == v.paid && w.earned == v.earned
    && 0 <= w.pot <= full
  }

  /** What `n` marks earn. */
  function Worth(rate: nat, n: nat): nat {
    if n == 0 then 0 else Worth(rate, n - 1) + rate
  }

  lemma {:induction false} WorthIs(rate: nat, n: nat)
    ensures Worth(rate, n) == rate * n
  {
    if n > 0 {
      WorthIs(rate, n - 1);
    }
  }

  // ---- For one code --------------------------------------------------------------------------------------

  ghost predicate Sound(v: View, full: nat, rate: nat) {
    && v.pot >= 0
    && Known(v.paid, |v.issued|)
    && forall c: nat :: Tally(v.paid, c) + (if c == Cur(v) then v.pot else 0) <= full + Worth(rate, Tally(v.earned, c))
  }

  lemma TallyNoted(marks: seq<Mark>, noted: bool, at: int, cur: nat, c: nat)
    ensures Tally(Noted(marks, noted, at, cur), c) == Tally(marks, c) + One(noted && c == cur)
  {
    if noted {
      TallySnoc(marks, Mark(at, cur), c);
    }
  }

  lemma PaysOne(paid: nat, earned: nat, full: nat, rate: nat, pot: int, newPot: int, pays: bool, earns: bool, current: bool)
    requires paid + (if current then pot else 0) <= full + Worth(rate, earned)
    requires newPot + One(pays) <= pot + if earns then rate else 0
    ensures paid + One(pays && current) + (if current then newPot else 0) <= full + Worth(rate, earned + One(earns && current))
  {
  }

  lemma PaysSound(v: View, w: View, pays: bool, earns: bool, full: nat, rate: nat)
    requires Sound(v, full, rate) && Pays(v, w, pays, earns, rate) && (pays ==> v.issued != [])
    ensures Sound(w, full, rate)
  {
    forall c: nat
      ensures Tally(w.paid, c) + (if c == Cur(w) then w.pot else 0) <= full + Worth(rate, Tally(w.earned, c))
    {
      TallyNoted(v.paid, pays, w.clock, Cur(v), c);
      TallyNoted(v.earned, earns, w.clock, Cur(v), c);
      assert Tally(v.paid, c) + (if c == Cur(v) then v.pot else 0) <= full + Worth(rate, Tally(v.earned, c));
      PaysOne(Tally(v.paid, c), Tally(v.earned, c), full, rate, v.pot, w.pot, pays, earns, c == Cur(v));
    }
  }

  lemma StartsSound(v: View, w: View, full: nat, rate: nat)
    requires Sound(v, full, rate) && Starts(v, w, full)
    ensures Sound(w, full, rate)
  {
    forall c: nat
      ensures Tally(w.paid, c) + (if c == Cur(w) then w.pot else 0) <= full + Worth(rate, Tally(w.earned, c))
    {
      if c == Cur(w) {
        TallyNone(v.paid, c);
      } else if c == Cur(v) {
        assert Tally(v.paid, c) + v.pot <= full + Worth(rate, Tally(v.earned, c));
      }
    }
  }

  // ---- For a window of time ------------------------------------------------------------------------------

  /** `full` for the code at hand and for each of `n` more. */
  function ForCodes(full: nat, n: nat): nat {
    if n == 0 then full else ForCodes(full, n - 1) + full
  }

  lemma {:induction false} ForCodesIs(full: nat, n: nat, codes: nat)
    requires codes == n + 1
    ensures ForCodes(full, n) == full * codes
  {
    if n > 0 {
      ForCodesIs(full, n - 1, codes - 1);
    }
  }

  lemma {:induction false} ForCodesMonotone(full: nat, n: nat, m: nat)
    requires n <= m
    ensures ForCodes(full, n) <= ForCodes(full, m)
  {
    if n < m {
      ForCodesMonotone(full, n, m - 1);
    }
  }

  function InWindow(marks: seq<Mark>, from: int, to: int): nat {
    CountIn(Times(marks), from, to)
  }

  function Allowance(v: View, full: nat, rate: nat, from: int, to: int): int {
    ForCodes(full, CountIn(v.issued, from, to)) + Worth(rate, InWindow(v.earned, from, to))
  }

  ghost predicate Within(v: View, full: nat, rate: nat, from: int, to: int) {
    && v.pot >= 0
    && InWindow(v.paid, from, to) <= Allowance(v, full, rate, from, to)
    && (v.clock < to ==> InWindow(v.paid, from, to) + v.pot <= Allowance(v, full, rate, from, to))
    && (v.clock < from ==> InWindow(v.paid, from, to) == 0 && v.pot <= full)
  }

  lemma WindowNoted(marks: seq<Mark>, noted: bool, at: int, cur: nat, from: int, to: int)
    ensures InWindow(Noted(marks, noted, at, cur), from, to) == InWindow(marks, from, to) + One(noted && from <= at < to)
  {
    if noted {
      assert Times(marks + [Mark(at, cur)]) == Times(marks) + [at];
      CountSnoc(Times(marks), at, from, to);
    }
  }

  lemma PaysWithin(v: View, w: View, pays: bool, earns: bool, full: nat, rate: nat, from: int, to: int)
    requires Within(v, full, rate, from, to) && Pays(v, w, pays, earns, rate)
    requires w.clock < from ==> w.pot <= full
    ensures Within(w, full, rate, from, to)
  {
    WindowNoted(v.paid, pays, w.clock, Cur(v), from, to);
    WindowNoted(v.earned, earns, w.clock, Cur(v), from, to);
    ForCodesMonotone(full, 0, CountIn(v.issued, from, to));
  }

  lemma AllowanceStarts(v: View, w: View, full: nat, rate: nat, from: int, to: int)
    requires Starts(v, w, full)
    ensures Allowance(w, full, rate, from, to) == Allowance(v, full, rate, from, to) + if from <= w.clock < to then full else 0
    ensures Allowance(v, full, rate, from, to) >= full + Worth(rate, InWindow(v.earned, from, to))
  {
    CountSnoc(v.issued, w.clock, from, to);
    ForCodesMonotone(full, 0, CountIn(v.issued, from, to));
  }

  lemma StartsWithin(v: View, w: View, full: nat, rate: nat, from: int, to: int)
    requires Within(v, full, rate, from, to) && Starts(v, w, full)
    ensures Within(w, full, rate, from, to)
  {
    AllowanceStarts(v, w, full, rate, from, to);
  }
}
