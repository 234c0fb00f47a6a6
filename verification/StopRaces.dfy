/**
 * Completions of one member that overlap, each in a transaction of its own: it looks the row up, writes it, chooses the
 * next pending stop, and makes that one current as it commits. A transaction sees the rows that were committed when
 * each statement began and its own writes, and waits for rows that another has written; the UPDATE of the next stop
 * names it by the id that was chosen, whatever has become of the stop since.
 */
module StopRaces {
  import opened Common
  import opened StopProgress

  type CallId = nat

  datatype Pending =
    | Found(stop: nat)                    // the row was read and not completed
    | Completes(stop: nat)                // the row is written, and locked until the end
    | Advances(stop: nat, next: nat)      // the next pending stop was chosen; if there is none, the number of stops

  /** The committed rows, the completions under way, and the stops completed by those that committed, in that order. */
  datatype State = State(track: Track, calls: map<CallId, Pending>, marked: seq<nat>)

  datatype Event =
    | Find(call: CallId, stop: nat)
    | Save(call: CallId)
    | Choose(call: CallId)
    | Commit(call: CallId)
    | Abort(call: CallId)

  function Start(n: nat): State {
    State(Seeded(n), map[], [])
  }

  predicate Locks(p: Pending, stop: nat) {
    !p.Found? && p.stop == stop
  }

  predicate Free(s: State, c: CallId, stop: nat) {
    forall d :: d in s.calls && d != c ==> !Locks(s.calls[d], stop)
  }

  predicate Enabled(s: State, e: Event) {
    match e
    case Find(c, i) => c !in s.calls && i < |s.track|
    case Save(c) => c in s.calls && s.calls[c].Found? && Free(s, c, s.calls[c].stop)
    case Choose(c) => c in s.calls && s.calls[c].Completes? && s.calls[c].stop < |s.track|
    case Commit(c) => c in s.calls && s.calls[c].Advances? && s.calls[c].stop < |s.track| && Free(s, c, s.calls[c].next)
    case Abort(c) => c in s.calls
  }

  function Written(t: Track, i: nat, next: nat): (r: Track)
    requires i < |t|
    ensures |r| == |t|
  {
    if next < |t| then t[i := Completed][next := Current] else t[i := Completed]
  }

  function Move(s: State, e: Event): State
    requires Enabled(s, e)
  {
    match e
    case Find(c, i) => if s.track[i].Completed? then s else s.(calls := s.calls[c := Found(i)])
    case Save(c) => s.(calls := s.calls[c := Completes(s.calls[c].stop)])
    case Choose(c) => s.(calls := s.calls[c := Advances(s.calls[c].stop, FirstPending(s.track[s.calls[c].stop := Completed]))])
    case Commit(c) =>
      State(Written(s.track, s.calls[c].stop, s.calls[c].next), s.calls - {c}, s.marked + [s.calls[c].stop])
    case Abort(c) => s.(calls := s.calls - {c})
  }

  ghost predicate CanRun(s: State, es: seq<Event>)
    decreases |es|, 0
  {
    es == [] || (CanRun(s, es[..|es| - 1]) && Enabled(Reach(s, es[..|es| - 1]), es[|es| - 1]))
  }

  ghost function Reach(s: State, es: seq<Event>): State
    requires CanRun(s, es)
    decreases |es|, 1
  {
    if es == [] then s else Move(Reach(s, es[..|es| - 1]), es[|es| - 1])
  }

  /** At no point of the run are more than `k` completions under way. With `k` 1, they do not overlap. */
  ghost predicate AtMost(s: State, es: seq<Event>, k: nat)
    requires CanRun(s, es)
    decreases |es|
  {
    |Reach(s, es).calls| <= k && (es != [] ==> AtMost(s, es[..|es| - 1], k))
  }

  ghost predicate Leads(s: State, es: seq<Event>, t: State, k: nat) {
    CanRun(s, es) && Reach(s, es) == t && AtMost(s, es, k)
  }

  lemma Extend(s: State, es: seq<Event>, t: State, e: Event, u: State, k: nat)
    requires Leads(s, es, t, k) && Enabled(t, e) && Move(t, e) == u && |u.calls| <= k
    ensures Leads(s, es + [e], u, k)
  {
    assert (es + [e])[..|es|] == es;
  }

  lemma {:induction false} AtMostMore(s: State, es: seq<Event>, k: nat, m: nat)
    requires CanRun(s, es) && AtMost(s, es, k) && k <= m
    ensures AtMost(s, es, m)
    decreases |es|
  {
    if es != [] {
      AtMostMore(s, es[..|es| - 1], k, m);
    }
  }

  // ---- Row locks -----------------------------------------------------------------------------------------

  /** No two completions under way have written the row of the same stop. */
  ghost predicate LocksApart(s: State) {
    forall c, d, i :: c in s.calls && d in s.calls && Locks(s.calls[c], i) && Locks(s.calls[d], i) ==> c == d
  }

  lemma MoveKeepsLocks(s: State, e: Event)
    requires LocksApart(s) && Enabled(s, e)
    ensures LocksApart(Move(s, e)) && |Move(s, e).track| == |s.track|
  {
    var s' := Move(s, e);
    forall c, d, i | c in s'.calls && d in s'.calls && Locks(s'.calls[c], i) && Locks(s'.calls[d], i)
      ensures c == d
    {
      assert c in s.calls && (c != e.call || e.Save? || e.Choose?);
      assert d in s.calls && (d != e.call || e.Save? || e.Choose?);
      assert !e.Save? || c != e.call ==> Locks(s.calls[c], i);
      assert !e.Save? || d != e.call ==> Locks(s.calls[d], i);
    }
  }

  /**
   * In every run: the row of a stop that some completion has written, and not yet committed, stays as it is until that
   * completion ends; and no other has written it.
   */
  lemma {:induction false} HeldRowStays(n: nat, es: seq<Event>)
    requires CanRun(Start(n), es)
    ensures LocksApart(Reach(Start(n), es)) && |Reach(Start(n), es).track| == n
    ensures forall e, d, i: nat :: Overtakes(Reach(Start(n), es), e, d, i) && i < n ==>
              Move(Reach(Start(n), es), e).track[i] == Reach(Start(n), es).track[i]
    decreases |es|
  {
    if es != [] {
      HeldRowStays(n, es[..|es| - 1]);
      MoveKeepsLocks(Reach(Start(n), es[..|es| - 1]), es[|es| - 1]);
    }
    forall e, d, i: nat | Overtakes(Reach(Start(n), es), e, d, i) && i < n
      ensures Move(Reach(Start(n), es), e).track[i] == Reach(Start(n), es).track[i]
    {
      OtherRowsMove(Reach(Start(n), es), e, d, i);
    }
  }

  /** A step of another completion than `d`, which has written the row of stop `i`. */
  ghost predicate Overtakes(s: State, e: Event, d: CallId, i: nat) {
    Enabled(s, e) && e.call != d && d in s.calls && Locks(s.calls[d], i)
  }

  lemma OtherRowsMove(s: State, e: Event, d: CallId, i: nat)
    requires LocksApart(s) && Overtakes(s, e, d, i) && i < |s.track|
    ensures Move(s, e).track[i] == s.track[i]
  {
    if e.Commit? {
      assert Locks(s.calls[e.call], s.calls[e.call].stop);
      assert !Locks(s.calls[d], s.calls[e.call].stop) && !Locks(s.calls[d], s.calls[e.call].next);
    }
  }

  // ---- In every interleaving -----------------------------------------------------------------------------

  ghost predicate SomeCurrent(t: Track) {
    exists i :: 0 <= i < |t| && t[i].Current?
  }

  /** Whatever was chosen, no stop before it but the one to be completed is pending. */
  ghost predicate Chosen(t: Track, p: Pending) {
    && p.stop < |t|
    && (p.Advances? ==> p.next != p.stop && forall j :: 0 <= j < p.next && j < |t| && j != p.stop ==> !t[j].Pending?)
  }

  ghost predicate Ordered(s: State) {
    && CurrentBeforePending(s.track)
    && (SomePending(s.track) ==> SomeCurrent(s.track))
    && (forall i :: 0 <= i < |s.track| && s.track[i].Completed? ==> i in s.marked)
    && (forall id :: id in s.calls ==> Chosen(s.track, s.calls[id]))
  }

  lemma WriteKeepsOrder(t: Track, p: Pending)
    requires CurrentBeforePending(t) && p.Advances? && Chosen(t, p) && p.next <= |t|
    ensures var r := Written(t, p.stop, p.next); CurrentBeforePending(r) && (SomePending(r) ==> SomeCurrent(r))
  {
    var r := Written(t, p.stop, p.next);
    if p.next < |t| {
      assert r[p.next].Current?;
    }
  }

  ghost predicate InTrack(s: State) {
    forall id :: id in s.calls && s.calls[id].Advances? ==> s.calls[id].next <= |s.track|
  }

  lemma MoveStaysInTrack(s: State, e: Event)
    requires InTrack(s) && Enabled(s, e)
    ensures InTrack(Move(s, e)) && |Move(s, e).track| == |s.track|
  {
    forall id | id in Move(s, e).calls && Move(s, e).calls[id].Advances?
      ensures Move(s, e).calls[id].next <= |s.track|
    {
      if e.Choose? && id == e.call {
        assert |s.track[s.calls[id].stop := Completed]| == |s.track|;
      }
    }
  }

  lemma ChosenStays(t: Track, r: Track, p: Pending)
    requires Chosen(t, p) && |r| == |t| && forall j :: 0 <= j < |t| && r[j].Pending? ==> t[j].Pending?
    ensures Chosen(r, p)
  {
  }

  lemma ChoiceIsChosen(t: Track, i: nat)
    requires i < |t|
    ensures Chosen(t, Advances(i, FirstPending(t[i := Completed])))
  {
    var u := t[i := Completed];
    var p := FirstPending(u);
    assert u[i].Completed?;
    forall j | 0 <= j < p && j != i
      ensures !t[j].Pending?
    {
      assert t[j] == u[j];
    }
  }

  lemma MoveKeepsChoices(s: State, e: Event)
    requires Ordered(s) && Enabled(s, e)
    ensures forall id :: id in Move(s, e).calls ==> Chosen(Move(s, e).track, Move(s, e).calls[id])
  {
    var s' := Move(s, e);
    forall id | id in s'.calls
      ensures Chosen(s'.track, s'.calls[id])
    {
      if e.Choose? && id == e.call {
        ChoiceIsChosen(s.track, s.calls[id].stop);
      } else if id in s.calls {
        ChosenStays(s.track, s'.track, s.calls[id]);
      }
    }
  }

  lemma MoveStaysOrdered(s: State, e: Event)
    requires Ordered(s) && InTrack(s) && Enabled(s, e)
    ensures Ordered(Move(s, e))
  {
    MoveKeepsChoices(s, e);
    if e.Commit? {
      WriteKeepsOrder(s.track, s.calls[e.call]);
    }
  }

  /**
   * However completions overlap, all current stops precede all pending ones, some stop is current while any is
   * pending, and no stop is completed that was not marked.
   */
  lemma {:induction false} OrderSurvives(n: nat, es: seq<Event>)
    requires CanRun(Start(n), es)
    ensures Ordered(Reach(Start(n), es)) && InTrack(Reach(Start(n), es)) && |Reach(Start(n), es).track| == n
    decreases |es|
  {
    if es == [] {
      assert n > 0 ==> Seeded(n)[0].Current?;
    } else {
      OrderSurvives(n, es[..|es| - 1]);
      MoveStaysInTrack(Reach(Start(n), es[..|es| - 1]), es[|es| - 1]);
      MoveStaysOrdered(Reach(Start(n), es[..|es| - 1]), es[|es| - 1]);
    }
  }

  // ---- Without overlap -----------------------------------------------------------------------------------

  /** What the completion found is still so. */
  ghost predicate Fresh(t: Track, p: Pending) {
    p.stop < |t| && !t[p.stop].Completed? && (p.Advances? ==> p.next == FirstPending(t[p.stop := Completed]))
  }

  /** The rows are what the completions that committed leave one after another. */
  ghost predicate Follows(s: State, n: nat) {
    InRange(s.marked, n) && s.track == Run(n, s.marked).track
  }

  ghost predicate Serial(s: State, n: nat) {
    Follows(s, n) && |s.calls| <= 1 && forall id :: id in s.calls ==> Fresh(s.track, s.calls[id])
  }

  lemma OnlyCall(s: State, c: CallId, id: CallId)
    requires |s.calls| <= 1 && c in s.calls && id in s.calls
    ensures id == c
  {
    MapSize(s.calls);
    if id != c {
      SubsetSmaller({id, c}, s.calls.Keys);
    }
  }

  lemma CommitFollows(s: State, e: Event, n: nat)
    requires Serial(s, n) && Enabled(s, e) && e.Commit?
    ensures Serial(Move(s, e), n)
  {
    var s', p := Move(s, e), s.calls[e.call];
    assert Fresh(s.track, p);
    assert s'.marked[..|s.marked|] == s.marked;
    assert s'.track == Complete(s.track, p.stop);
    forall id
      ensures id !in s'.calls
    {
      if id in s.calls {
        OnlyCall(s, e.call, id);
      }
    }
  }

  lemma MoveStaysSerial(s: State, e: Event, n: nat)
    requires Serial(s, n) && Enabled(s, e) && |Move(s, e).calls| <= 1
    ensures Serial(Move(s, e), n)
  {
    if e.Commit? {
      CommitFollows(s, e, n);
    } else {
      assert Move(s, e).track == s.track && Move(s, e).marked == s.marked;
    }
  }

  lemma {:induction false} RunStaysSerial(n: nat, es: seq<Event>)
    requires CanRun(Start(n), es) && AtMost(Start(n), es, 1)
    ensures Serial(Reach(Start(n), es), n)
    decreases |es|
  {
    if es != [] {
      RunStaysSerial(n, es[..|es| - 1]);
      MoveStaysSerial(Reach(Start(n), es[..|es| - 1]), es[|es| - 1], n);
    }
  }

  // ---- With overlap --------------------------------------------------------------------------------------

  const NONE: map<CallId, Pending> := map[]

  const SEEDED: Track := [Current, Pending, Pending]

  function Two(p: Pending, q: Pending): State {
    State(SEEDED, map[1 := p, 2 := q], [])
  }

  lemma StartOfThree()
    ensures Start(3) == State(SEEDED, NONE, [])
  {
    assert Seeded(3) == SEEDED;
  }

  lemma FirstOfThree(t: Track)
    requires |t| == 3
    ensures FirstPending(t) == if t[0].Pending? then 0 else if t[1].Pending? then 1 else if t[2].Pending? then 2 else 3
  {
  }

  /** Both requests of a double tap have found the stop. */
  lemma BothFind(i: nat, j: nat) returns (es: seq<Event>)
    requires i < 3 && j < 3
    ensures Leads(Start(3), es, Two(Found(i), Found(j)), 2)
  {
    StartOfThree();
    var one := State(SEEDED, NONE[1 := Found(i)], []);
    Extend(Start(3), [], Start(3), Find(1, i), one, 2);
    assert NONE[1 := Found(i)][2 := Found(j)] == map[1 := Found(i), 2 := Found(j)];
    Extend(Start(3), [] + [Find(1, i)], one, Find(2, j), Two(Found(i), Found(j)), 2);
    es := [] + [Find(1, i)] + [Find(2, j)];
  }

  const TAPPED: Track := [Completed, Current, Pending]

  const TWO_AHEAD: Track := [Completed, Current, Current]

  function One(t: Track, p: Pending, marked: seq<nat>): State {
    State(t, map[2 := p], marked)
  }

  lemma FirstTap()
    ensures Move(Two(Found(0), Found(0)), Save(1)) == Two(Completes(0), Found(0))
    ensures Move(Two(Completes(0), Found(0)), Choose(1)) == Two(Advances(0, 1), Found(0))
    ensures Move(Two(Advances(0, 1), Found(0)), Commit(1)) == One(TAPPED, Found(0), [0])
  {
    FirstOfThree(SEEDED[0 := Completed]);
    assert [] + [0] == [0];
    assert map[1 := Advances(0, 1), 2 := Found(0)] - {1} == map[2 := Found(0)];
  }

  lemma SecondTap()
    ensures Enabled(One(TAPPED, Found(0), [0]), Save(2)) && Move(One(TAPPED, Found(0), [0]), Save(2)) == One(TAPPED, Completes(0), [0])
    ensures Move(One(TAPPED, Completes(0), [0]), Choose(2)) == One(TAPPED, Advances(0, 2), [0])
    ensures Enabled(One(TAPPED, Advances(0, 2), [0]), Commit(2))
    ensures Move(One(TAPPED, Advances(0, 2), [0]), Commit(2)) == State(TWO_AHEAD, NONE, [0, 0])
  {
    FirstOfThree(TAPPED[0 := Completed]);
    assert [0] + [0] == [0, 0];
    assert map[2 := Advances(0, 2)] - {2} == NONE;
  }

  /** A double tap on the current stop advances twice: two stops are current though only the current one was marked. */
  lemma DoubleTap() returns (es: seq<Event>)
    ensures Leads(Start(3), es, State(TWO_AHEAD, NONE, [0, 0]), 2)
  {
    es := BothFind(0, 0);
    FirstTap();
    SecondTap();
    Extend(Start(3), es, Two(Found(0), Found(0)), Save(1), Two(Completes(0), Found(0)), 2);
    es := es + [Save(1)];
    Extend(Start(3), es, Two(Completes(0), Found(0)), Choose(1), Two(Advances(0, 1), Found(0)), 2);
    es := es + [Choose(1)];
    Extend(Start(3), es, Two(Advances(0, 1), Found(0)), Commit(1), One(TAPPED, Found(0), [0]), 2);
    es := es + [Commit(1)];
    Extend(Start(3), es, One(TAPPED, Found(0), [0]), Save(2), One(TAPPED, Completes(0), [0]), 2);
    es := es + [Save(2)];
    Extend(Start(3), es, One(TAPPED, Completes(0), [0]), Choose(2), One(TAPPED, Advances(0, 2), [0]), 2);
    es := es + [Choose(2)];
    Extend(Start(3), es, One(TAPPED, Advances(0, 2), [0]), Commit(2), State(TWO_AHEAD, NONE, [0, 0]), 2);
    es := es + [Commit(2)];
  }

  const SECOND_FIRST: Track := [Current, Completed, Current]

  lemma BothSave()
    ensures Enabled(Two(Found(0), Found(1)), Save(1)) && Move(Two(Found(0), Found(1)), Save(1)) == Two(Completes(0), Found(1))
    ensures Enabled(Two(Completes(0), Found(1)), Save(2)) && Move(Two(Completes(0), Found(1)), Save(2)) == Two(Completes(0), Completes(1))
    ensures Move(Two(Completes(0), Completes(1)), Choose(1)) == Two(Advances(0, 1), Completes(1))
    ensures Move(Two(Advances(0, 1), Completes(1)), Choose(2)) == Two(Advances(0, 1), Advances(1, 2))
  {
    FirstOfThree(SEEDED[0 := Completed]);
    FirstOfThree(SEEDED[1 := Completed]);
  }

  lemma BothCommit()
    ensures Enabled(Two(Advances(0, 1), Advances(1, 2)), Commit(2))
    ensures Move(Two(Advances(0, 1), Advances(1, 2)), Commit(2)) == State(SECOND_FIRST, map[1 := Advances(0, 1)], [1])
    ensures Enabled(State(SECOND_FIRST, map[1 := Advances(0, 1)], [1]), Commit(1))
    ensures Move(State(SECOND_FIRST, map[1 := Advances(0, 1)], [1]), Commit(1)) == State(TWO_AHEAD, NONE, [1, 0])
  {
    assert [] + [1] == [1] && [1] + [0] == [1, 0];
    assert map[1 := Advances(0, 1), 2 := Advances(1, 2)] - {2} == map[1 := Advances(0, 1)];
    assert map[1 := Advances(0, 1)] - {1} == NONE;
  }

  /** A completion is undone: stop 1 is marked while stop 0 is, and made current again by the one of stop 0. */
  lemma LostCompletion() returns (es: seq<Event>)
    ensures Leads(Start(3), es, State(TWO_AHEAD, NONE, [1, 0]), 2)
  {
    es := BothFind(0, 1);
    BothSave();
    BothCommit();
    Extend(Start(3), es, Two(Found(0), Found(1)), Save(1), Two(Completes(0), Found(1)), 2);
    es := es + [Save(1)];
    Extend(Start(3), es, Two(Completes(0), Found(1)), Save(2), Two(Completes(0), Completes(1)), 2);
    es := es + [Save(2)];
    Extend(Start(3), es, Two(Completes(0), Completes(1)), Choose(1), Two(Advances(0, 1), Completes(1)), 2);
    es := es + [Choose(1)];
    Extend(Start(3), es, Two(Advances(0, 1), Completes(1)), Choose(2), Two(Advances(0, 1), Advances(1, 2)), 2);
    es := es + [Choose(2)];
    Extend(Start(3), es, Two(Advances(0, 1), Advances(1, 2)), Commit(2), State(SECOND_FIRST, map[1 := Advances(0, 1)], [1]), 2);
    es := es + [Commit(2)];
    Extend(Start(3), es, State(SECOND_FIRST, map[1 := Advances(0, 1)], [1]), Commit(1), State(TWO_AHEAD, NONE, [1, 0]), 2);
    es := es + [Commit(1)];
  }

  ghost predicate AlwaysFollows(k: nat) {
    forall n: nat, es :: CanRun(Start(n), es) && AtMost(Start(n), es, k) ==> Follows(Reach(Start(n), es), n)
  }

  lemma TwiceMarked()
    ensures Run(3, [0, 0]).track == TAPPED
  {
    var once: seq<nat> := [0];
    assert once[..0] == [] && [0, 0][..1] == once;
    assert Seeded(3) == SEEDED;
    FirstOfThree(SEEDED[0 := Completed]);
    assert Run(3, once).track == TAPPED;
  }

  lemma TwiceIsOnce()
    ensures !Follows(State(TWO_AHEAD, NONE, [0, 0]), 3)
  {
    TwiceMarked();
    assert TAPPED[2] != TWO_AHEAD[2];
  }

  /**
   * The rows are in every run what the completions leave one after another, as AnyOrder, CompletedIffMarked and
   * InOrderIsCounter describe it, exactly when completions of the member do not overlap.
   */
  lemma FollowsIff(k: nat)
    ensures AlwaysFollows(k) <==> k <= 1
  {
    if k <= 1 {
      forall n: nat, es | CanRun(Start(n), es) && AtMost(Start(n), es, k)
        ensures Follows(Reach(Start(n), es), n)
      {
        AtMostMore(Start(n), es, k, 1);
        RunStaysSerial(n, es);
      }
    } else {
      var es := DoubleTap();
      AtMostMore(Start(3), es, 2, k);
      TwiceIsOnce();
    }
  }

  ghost predicate MarkedCompleted(s: State) {
    forall i :: 0 <= i < |s.track| && i in s.marked ==> s.track[i].Completed?
  }

  ghost predicate CompletionsLast(k: nat) {
    forall n: nat, es :: CanRun(Start(n), es) && AtMost(Start(n), es, k) ==> MarkedCompleted(Reach(Start(n), es))
  }

  /** And what is marked is completed, and stays it, in every run exactly then. */
  lemma CompletionsLastIff(k: nat)
    ensures CompletionsLast(k) <==> k <= 1
  {
    if k <= 1 {
      forall n: nat, es | CanRun(Start(n), es) && AtMost(Start(n), es, k)
        ensures MarkedCompleted(Reach(Start(n), es))
      {
        AtMostMore(Start(n), es, k, 1);
        RunStaysSerial(n, es);
        var s := Reach(Start(n), es);
        forall i | 0 <= i < |s.track| && i in s.marked
          ensures s.track[i].Completed?
        {
          CompletedIffMarked(n, s.marked, i);
        }
      }
    } else {
      var es := LostCompletion();
      AtMostMore(Start(3), es, 2, k);
      assert 1 in [1, 0] && TWO_AHEAD[1].Current?;
    }
  }
}
