/** The bound of RateLimit is met for every number of calls in flight: 60 a minute holds exactly without overlap. */
module RateOverlap {
  import opened Common
  import opened RateLimit
  import opened Windows

  /** `n` calls at time 0, named by their position. */
  function Calls(n: nat): (r: seq<Call>)
    ensures |r| == n && forall i :: 0 <= i < n ==> r[i] == Call(0, i)
  {
    seq(n, i requires 0 <= i < n => Call(0, i))
  }

  function Entries(n: nat): map<Member, nat> {
    map m | m in Range(0, n) :: 0
  }

  function KeyWith(n: nat): Option<Scores> {
    if n == 0 then None else Some(Scores(Entries(n), RL_KEY_TTL_MS))
  }

  /** After `n` calls one after the other. */
  function Row(n: nat): State {
    State(0, KeyWith(n), map[], Calls(n), Calls(n))
  }

  /** After `n` calls one after the other, `j` more have counted. */
  function Crowd(n: nat, j: nat): State {
    State(0, KeyWith(n), map i | i in Range(0, j) :: Call(0, n + i), Calls(n + j), Calls(n))
  }

  lemma NothingPruned(n: nat)
    ensures Kept(KeyWith(n), 0) == (if n == 0 then map[] else Entries(n)) && |Kept(KeyWith(n), 0)| == n
    ensures AfterPrune(KeyWith(n), 0) == KeyWith(n)
  {
    RangeSize(n);
    MapSize(Kept(KeyWith(n), 0));
    assert Kept(KeyWith(n), 0).Keys == Range(0, n);
  }

  lemma CountJoins(n: nat, j: nat)
    requires n < RL_REACT_MAX
    ensures var e := Count(j, 0, n + j); Enabled(Crowd(n, j), e) && Next(Crowd(n, j), e) == Crowd(n, j + 1)
  {
    NothingPruned(n);
    assert Calls(n + j) + [Call(0, n + j)] == Calls(n + (j + 1));
    assert Crowd(n, j).calls[j := Call(0, n + j)] == Crowd(n, j + 1).calls;
  }

  lemma AddLeaves(n: nat)
    ensures Enabled(Crowd(n, 1), Add(0, 0)) && Next(Crowd(n, 1), Add(0, 0)) == Row(n + 1)
  {
    assert Calls(n) + [Call(0, n)] == Calls(n + 1);
    assert (if n == 0 then map[] else Entries(n))[n := 0] == Entries(n + 1);
    assert Crowd(n, 1).calls - {0} == map[];
  }

  lemma CrowdSize(n: nat, j: nat)
    ensures |Crowd(n, j).calls| == j && Crowd(n, 0) == Row(n)
  {
    RangeSize(j);
    MapSize(Crowd(n, j).calls);
    assert Crowd(n, j).calls.Keys == Range(0, j);
    assert Crowd(n, 0).calls == map[];
  }

  ghost predicate Reaches(es: seq<Event>, s: State, k: nat) {
    CanRun(es) && Run(es) == s && AtMost(es, k)
  }

  lemma JoinRuns(init: seq<Event>, n: nat, j: nat, k: nat) returns (es: seq<Event>)
    requires n < RL_REACT_MAX && j < k && Reaches(init, Crowd(n, j), k)
    ensures Reaches(es, Crowd(n, j + 1), k)
  {
    CrowdSize(n, j + 1);
    CountJoins(n, j);
    Extend(init, Crowd(n, j), Count(j, 0, n + j), Crowd(n, j + 1), k);
    es := init + [Count(j, 0, n + j)];
  }

  lemma LeaveRuns(init: seq<Event>, n: nat) returns (es: seq<Event>)
    requires Reaches(init, Crowd(n, 1), 1)
    ensures Reaches(es, Row(n + 1), 1)
  {
    AddLeaves(n);
    Extend(init, Crowd(n, 1), Add(0, 0), Row(n + 1), 1);
    es := init + [Add(0, 0)];
  }

  lemma {:induction false} RowRuns(n: nat) returns (es: seq<Event>)
    requires n <= RL_REACT_MAX
    ensures Reaches(es, Row(n), 1)
  {
    if n == 0 {
      es := [];
      assert Calls(0) == [];
    } else {
      var init := RowRuns(n - 1);
      CrowdSize(n - 1, 0);
      var joined := JoinRuns(init, n - 1, 0, 1);
      es := LeaveRuns(joined, n - 1);
    }
  }

  lemma {:induction false} AtMostMore(es: seq<Event>, k: nat, m: nat)
    requires CanRun(es) && AtMost(es, k) && k <= m
    ensures AtMost(es, m)
    decreases |es|
  {
    if es != [] {
      AtMostMore(es[..|es| - 1], k, m);
    }
  }

  lemma {:induction false} CrowdRuns(n: nat, j: nat, k: nat) returns (es: seq<Event>)
    requires n < RL_REACT_MAX && j <= k && k >= 1
    ensures Reaches(es, Crowd(n, j), k)
  {
    if j == 0 {
      es := RowRuns(n);
      CrowdSize(n, 0);
      AtMostMore(es, 1, k);
    } else {
      var init := CrowdRuns(n, j - 1, k);
      es := JoinRuns(init, n, j - 1, k);
    }
  }

  /** With `k` calls in flight, 59 + k reactions can be granted at one instant. */
  lemma BoundIsMet(k: nat) returns (es: seq<Event>)
    requires k >= 1
    ensures CanRun(es) && AtMost(es, k) && CountIn(Times(Run(es).grants), 0, 60000) == 59 + k
  {
    es := CrowdRuns(RL_REACT_MAX - 1, k, k);
    CountAll(Times(Run(es).grants), 0, RL_WINDOW_MS);
  }

  ghost predicate SixtyFrom(es: seq<Event>, from: int)
    requires CanRun(es)
  {
    CountIn(Times(Run(es).grants), from, from + 60000) <= 60
  }

  ghost predicate SixtyAMinute(k: nat) {
    forall es, from: int :: CanRun(es) && AtMost(es, k) ==> SixtyFrom(es, from)
  }

  /** No minute of any run holds more than 60 grants exactly when calls of the user do not overlap. */
  lemma SixtyIff(k: nat)
    ensures SixtyAMinute(k) <==> k <= 1
  {
    if k <= 1 {
      forall es, from: int | CanRun(es) && AtMost(es, k)
        ensures SixtyFrom(es, from)
      {
        AnyMinute(es, k, from);
      }
    } else {
      var es := BoundIsMet(k);
      assert !SixtyFrom(es, 0);
    }
  }
}
