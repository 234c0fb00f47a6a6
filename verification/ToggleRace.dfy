/**
 * One reaction of one user to one message, toggled by calls that may overlap: a call first tries to INSERT, and
 * only if the row was there does it DELETE, in a second command.
 */
module ToggleRace {
  import opened Common

  type CallId = nat

  /** Whether the row is there, the calls that found it there and have yet to delete it, and the toggles so far. */
  datatype State = State(present: bool, deleting: set<CallId>, toggles: nat)

  datatype Step = Insert(call: CallId) | Delete(call: CallId)

  const START := State(false, {}, 0)

  predicate Enabled(s: State, e: Step) {
    match e
    case Insert(c) => c !in s.deleting
    case Delete(c) => c in s.deleting
  }

  function Next(s: State, e: Step): State {
    match e
    case Insert(c) => State(true, if s.present then s.deleting + {c} else s.deleting, s.toggles + 1)
    case Delete(c) => State(false, s.deleting - {c}, s.toggles)
  }

  ghost predicate CanRun(es: seq<Step>) {
    es == [] || (CanRun(es[..|es| - 1]) && Enabled(Run(es[..|es| - 1]), es[|es| - 1]))
  }

  function Run(es: seq<Step>): State {
    if es == [] then START else Next(Run(es[..|es| - 1]), es[|es| - 1])
  }

  /** At no point are more than `k` calls between INSERT and DELETE. With `k` 1, calls do not overlap. */
  ghost predicate AtMost(es: seq<Step>, k: nat) {
    |Run(es).deleting| <= k && (es != [] ==> AtMost(es[..|es| - 1], k))
  }

  /** At rest the reaction is there just when it was toggled an odd number of times. */
  ghost predicate ParityHolds(k: nat) {
    forall es :: CanRun(es) && AtMost(es, k) && Run(es).deleting == {} ==> (Run(es).present <==> Run(es).toggles % 2 == 1)
  }

  lemma {:induction false} SerialParity(es: seq<Step>)
    requires CanRun(es) && AtMost(es, 1)
    ensures var s := Run(es); if s.deleting == {} then s.present <==> s.toggles % 2 == 1 else s.present && s.toggles % 2 == 0
  {
    if es != [] {
      var before, e := Run(es[..|es| - 1]), es[|es| - 1];
      SerialParity(es[..|es| - 1]);
      assert e.Insert? && before.present ==> |Run(es).deleting| == |before.deleting| + 1;
      assert e.Delete? ==> |Run(es).deleting| == |before.deleting| - 1;
    }
  }

  lemma Snoc(es: seq<Step>, e: Step, k: nat)
    requires CanRun(es) && AtMost(es, k) && Enabled(Run(es), e) && |Next(Run(es), e).deleting| <= k
    ensures CanRun(es + [e]) && AtMost(es + [e], k) && Run(es + [e]) == Next(Run(es), e)
  {
    assert (es + [e])[..|es|] == es;
  }

  /** Two overlapping toggles of a reaction that is there both delete it. */
  lemma BothDelete() returns (es: seq<Step>)
    ensures CanRun(es) && AtMost(es, 2) && Run(es) == State(false, {}, 3)
  {
    Snoc([], Insert(0), 2);
    Snoc([] + [Insert(0)], Insert(1), 2);
    Snoc([] + [Insert(0)] + [Insert(1)], Insert(2), 2);
    Snoc([] + [Insert(0)] + [Insert(1)] + [Insert(2)], Delete(1), 2);
    Snoc([] + [Insert(0)] + [Insert(1)] + [Insert(2)] + [Delete(1)], Delete(2), 2);
    es := [] + [Insert(0)] + [Insert(1)] + [Insert(2)] + [Delete(1)] + [Delete(2)];
  }

  lemma {:induction false} AtMostMore(es: seq<Step>, k: nat, m: nat)
    requires AtMost(es, k) && k <= m
    ensures AtMost(es, m)
  {
    if es != [] {
      AtMostMore(es[..|es| - 1], k, m);
    }
  }

  /** The parity of toggles decides in every run exactly when toggles of the same reaction do not overlap. */
  lemma ParityIff(k: nat)
    ensures ParityHolds(k) <==> k <= 1
  {
    if k <= 1 {
      forall es | CanRun(es) && AtMost(es, k) && Run(es).deleting == {}
        ensures Run(es).present <==> Run(es).toggles % 2 == 1
      {
        AtMostMore(es, k, 1);
        SerialParity(es);
      }
    } else {
      var es := BothDelete();
      AtMostMore(es, 2, k);
    }
  }
}
