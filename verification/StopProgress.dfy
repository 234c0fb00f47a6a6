/**
 * Progress of one member through the stops of a trip: one status per stop, in stop order. Completing a stop
 * makes the next pending one current, in whatever order stops are completed.
 */
module StopProgress {
  import opened Common
  import TripSeats

  type UserId = nat
  type StopId = nat

  datatype Status = Pending | Current | Completed

  type Track = seq<Status>

  function SeedStatus(i: nat): Status {
    if i == 0 then Current else Pending
  }

  /** What `ensureRowsExist` inserts: stop 1 current, the rest pending. */
  function Seeded(n: nat): (t: Track)
    ensures |t| == n && forall i :: 0 <= i < n ==> t[i] == SeedStatus(i)
  {
    seq(n, i requires 0 <= i < n => SeedStatus(i))
  }

  /** The first pending stop by order, or the number of stops if there is none. */
  function FirstPending(t: Track): (p: nat)
    ensures p <= |t| && (p < |t| ==> t[p].Pending?)
    ensures forall i :: 0 <= i < p ==> !t[i].Pending?
  {
    if t == [] then 0
    else if t[0].Pending? then 0
    else 1 + FirstPending(t[1..])
  }

  function Advance(t: Track): Track {
    var p := FirstPending(t);
    if p < |t| then t[p := Current] else t
  }

  /** `markComplete` on stop `i`: nothing if it is completed already. */
  function Complete(t: Track, i: nat): (r: Track)
    requires i < |t|
    ensures |r| == |t|
  {
    if t[i].Completed? then t else Advance(t[i := Completed])
  }

  /**
   * Stop by stop: the stop is completed; and if it was not so before, the first other pending stop becomes current. The
   * rest stays as it was.
   */
  lemma CompletesExactly(t: Track, i: nat, j: nat)
    requires i < |t| && j < |t|
    ensures var next := t[i] != Completed && t[j] == Pending && forall k :: 0 <= k < j && k != i ==> t[k] != Pending;
            Complete(t, i)[j] == if j == i then Completed else if next then Current else t[j]
  {
    if t[i] != Completed {
      var done := t[i := Completed];
      var p := FirstPending(done);
      if p < |t| {
        assert t[p] == Pending && p != i;
        assert forall k :: 0 <= k < p && k != i ==> done[k] == t[k];
      }
      if j != i && t[j] == Pending {
        assert done[j] == Pending;
        assert p <= j;
      }
    }
  }

  /** A run of completions, with the number of stops that were completed before their turn, while still pending. */
  datatype Progress = Progress(track: Track, early: nat)

  ghost predicate InRange(cs: seq<nat>, n: nat) {
    forall i :: 0 <= i < |cs| ==> cs[i] < n
  }

  function Run(n: nat, cs: seq<nat>): (p: Progress)
    requires InRange(cs, n)
    ensures |p.track| == n
  {
    if cs == [] then Progress(Seeded(n), 0)
    else
      var before, i := Run(n, cs[..|cs| - 1]), cs[|cs| - 1];
      Progress(Complete(before.track, i), before.early + if before.track[i].Pending? then 1 else 0)
  }

  function Count(t: Track, s: Status): nat {
    if t == [] then 0 else Count(t[..|t| - 1], s) + if t[|t| - 1] == s then 1 else 0
  }

  lemma {:induction false} CountUpdate(t: Track, i: nat, u: Status, s: Status)
    requires i < |t|
    ensures Count(t[i := u], s) == Count(t, s) - (if t[i] == s then 1 else 0) + (if u == s then 1 else 0)
  {
    if i < |t| - 1 {
      assert t[i := u][..|t| - 1] == t[..|t| - 1][i := u];
      CountUpdate(t[..|t| - 1], i, u, s);
    } else {
      assert t[i := u][..|t| - 1] == t[..|t| - 1];
    }
  }

  lemma {:induction false} CountSome(t: Track, s: Status)
    ensures Count(t, s) > 0 <==> exists i :: 0 <= i < |t| && t[i] == s
  {
    if t != [] {
      CountSome(t[..|t| - 1], s);
    }
  }

  lemma {:induction false} CountSeeded(n: nat)
    ensures Count(Seeded(n), Current) == if n == 0 then 0 else 1
  {
    if n > 0 {
      assert Seeded(n)[..n - 1] == Seeded(n - 1);
      CountSeeded(n - 1);
    }
  }

  /** No current stop lies behind a pending one. */
  ghost predicate CurrentBeforePending(t: Track) {
    forall i, j :: 0 <= i < j < |t| ==> !(t[i].Pending? && t[j].Current?)
  }

  ghost predicate SomePending(t: Track) {
    exists i :: 0 <= i < |t| && t[i].Pending?
  }

  ghost predicate Inv(p: Progress) {
    && CurrentBeforePending(p.track)
    && (SomePending(p.track) ==> Count(p.track, Current) == 1 + p.early)
  }

  lemma StepKeepsInv(p: Progress, i: nat)
    requires Inv(p) && i < |p.track| && !p.track[i].Completed?
    ensures Inv(Progress(Complete(p.track, i), p.early + if p.track[i].Pending? then 1 else 0))
  {
    var t := p.track[i := Completed];
    var f := FirstPending(t);
    CountUpdate(p.track, i, Completed, Current);
    if f < |t| {
      CountUpdate(t, f, Current, Current);
      assert p.track[f].Pending?;
    }
  }

  /**
   * Completions in any order: current stops precede pending ones, and as long as any stop is pending the
   * current ones number one more than the stops completed before their turn. So some stop is then current,
   * and exactly one is just when none was completed early.
   */
  lemma {:induction false} AnyOrder(n: nat, cs: seq<nat>)
    requires InRange(cs, n)
    ensures var p := Run(n, cs);
            && CurrentBeforePending(p.track)
            && (SomePending(p.track) ==> Count(p.track, Current) == 1 + p.early)
  {
    if cs == [] {
      CountSeeded(n);
    } else {
      var before, i := Run(n, cs[..|cs| - 1]), cs[|cs| - 1];
      AnyOrder(n, cs[..|cs| - 1]);
      if !before.track[i].Completed? {
        StepKeepsInv(before, i);
      }
    }
  }

  /** A stop is completed exactly when it was marked, so marking every stop, in any order, finishes the trip. */
  lemma {:induction false} CompletedIffMarked(n: nat, cs: seq<nat>, i: nat)
    requires InRange(cs, n) && i < n
    ensures Run(n, cs).track[i].Completed? <==> i in cs
  {
    if cs != [] {
      var init, last := cs[..|cs| - 1], cs[|cs| - 1];
      CompletedIffMarked(n, init, i);
      assert cs == init + [last];
    }
  }

  // ---- In order ------------------------------------------------------------------------------------------

  /** The array that a single counter stands for: `k` completed, then one current, the rest pending. */
  function Counter(n: nat, k: nat): (t: Track)
    requires k <= n
    ensures |t| == n
    ensures forall i :: 0 <= i < n ==> t[i] == CounterStatus(k, i)
  {
    seq(n, i requires 0 <= i < n => CounterStatus(k, i))
  }

  function CounterStatus(k: nat, i: nat): Status {
    if i < k then Completed else if i == k then Current else Pending
  }

  /** Only the current stop is ever marked. */
  ghost predicate OnlyCurrentMarked(n: nat, cs: seq<nat>)
    requires InRange(cs, n)
  {
    forall i :: 0 <= i < |cs| ==> Run(n, cs[..i]).track[cs[i]].Current?
  }

  /** Then the array is always completed* current? pending*, and refines a counter of completions. */
  lemma {:induction false} InOrderIsCounter(n: nat, cs: seq<nat>)
    requires InRange(cs, n) && OnlyCurrentMarked(n, cs)
    ensures |cs| <= n && Run(n, cs) == Progress(Counter(n, |cs|), 0)
    ensures forall i :: 0 <= i < |cs| ==> cs[i] == i
  {
    if cs == [] {
      assert Seeded(n) == Counter(n, 0);
    } else {
      var init, last := cs[..|cs| - 1], cs[|cs| - 1];
      assert cs == init + [last];
      PrefixInOrder(n, init, last);
      InOrderIsCounter(n, init);
      MarkNext(n, init, last);
      InPlace(init, last);
    }
  }

  lemma InPlace(init: seq<nat>, last: nat)
    requires (forall i :: 0 <= i < |init| ==> init[i] == i) && last == |init|
    ensures forall i :: 0 <= i < |init + [last]| ==> (init + [last])[i] == i
  {
  }

  lemma RangeOfInit(init: seq<nat>, last: nat, n: nat)
    requires InRange(init + [last], n)
    ensures InRange(init, n) && last < n
  {
    assert (init + [last])[|init|] == last;
    assert forall i :: 0 <= i < |init| ==> (init + [last])[i] == init[i];
  }

  lemma PrefixInOrder(n: nat, init: seq<nat>, last: nat)
    requires InRange(init + [last], n) && OnlyCurrentMarked(n, init + [last])
    ensures InRange(init, n) && last < n && OnlyCurrentMarked(n, init) && Run(n, init).track[last].Current?
  {
    var cs := init + [last];
    RangeOfInit(init, last, n);
    assert cs[|init|] == last && cs[..|init|] == init;
    forall i | 0 <= i < |init|
      ensures Run(n, init[..i]).track[init[i]].Current?
    {
      assert init[..i] == cs[..i];
    }
  }

  lemma MarkNext(n: nat, init: seq<nat>, last: nat)
    requires InRange(init, n) && last < n && |init| <= n && Run(n, init) == Progress(Counter(n, |init|), 0)
    requires Counter(n, |init|)[last].Current? && InRange(init + [last], n)
    ensures last == |init| < n && Run(n, init + [last]) == Progress(Counter(n, |init| + 1), 0)
  {
    assert (init + [last])[..|init|] == init;
    assert Counter(n, |init|)[last] == CounterStatus(|init|, last);
    CompleteCounter(n, |init|);
  }

  lemma CompleteCounter(n: nat, k: nat)
    requires k < n
    ensures Complete(Counter(n, k), k) == Counter(n, k + 1)
  {
    var t := Counter(n, k)[k := Completed];
    var p := FirstPending(t);
    assert k + 1 < n ==> t[k + 1] == CounterStatus(k, k + 1);
    assert forall i :: 0 <= i <= k ==> !t[i].Pending?;
    assert p == if k + 1 < n then k + 1 else n;
  }

  // ---- The aggregate -------------------------------------------------------------------------------------

  /** One row of `getAllProgress`: how many members have the stop in each status. */
  datatype Tally = Tally(completed: nat, current: nat, pending: nat)

  /** The user_stop_progress table, unique in (stop, user). */
  type Rows = map<(StopId, UserId), Status>

  /** The users whose row for the stop has the status. */
  function UsersWith(rows: Rows, stop: StopId, s: Status): set<UserId> {
    set k | k in rows && k.0 == stop && rows[k] == s :: k.1
  }

  function TallyOf(rows: Rows, stop: StopId): Tally {
    Tally(|UsersWith(rows, stop, Completed)|, |UsersWith(rows, stop, Current)|, |UsersWith(rows, stop, Pending)|)
  }

  /** The rows after each member has completed stops, in whatever order; the k-th stop has id k. */
  ghost function RowsAfter(n: nat, marks: map<UserId, seq<nat>>): Rows
    requires forall u :: u in marks ==> InRange(marks[u], n)
  {
    map i, u | i in Range(0, n) && u in marks :: (i, u) := Run(n, marks[u]).track[i]
  }

  ghost function MembersWith(n: nat, marks: map<UserId, seq<nat>>, stop: nat, s: Status): set<UserId>
    requires (forall u :: u in marks ==> InRange(marks[u], n)) && stop < n
  {
    set u | u in marks && Run(n, marks[u]).track[stop] == s
  }

  lemma UsersAreMembers(n: nat, marks: map<UserId, seq<nat>>, stop: nat, s: Status)
    requires (forall u :: u in marks ==> InRange(marks[u], n)) && stop < n
    ensures UsersWith(RowsAfter(n, marks), stop, s) == MembersWith(n, marks, stop, s)
  {
    var rows := RowsAfter(n, marks);
    forall u | u in marks
      ensures u in UsersWith(rows, stop, s) <==> Run(n, marks[u]).track[stop] == s
    {
      assert (stop, u) in rows;
    }
  }

  lemma ThreeWays(all: set<UserId>, a: set<UserId>, b: set<UserId>, c: set<UserId>)
    requires all == a + b + c && a !! b && (a + b) !! c
    ensures |a| + |b| + |c| == |all|
  {
  }

  /** The three counts are those of the members whose own progress has the stop in that status. */
  lemma TallyIsMembers(n: nat, marks: map<UserId, seq<nat>>, stop: nat)
    requires (forall u :: u in marks ==> InRange(marks[u], n)) && stop < n
    ensures TallyOf(RowsAfter(n, marks), stop) ==
            Tally(|MembersWith(n, marks, stop, Completed)|, |MembersWith(n, marks, stop, Current)|, |MembersWith(n, marks, stop, Pending)|)
  {
    UsersAreMembers(n, marks, stop, Completed);
    UsersAreMembers(n, marks, stop, Current);
    UsersAreMembers(n, marks, stop, Pending);
  }

  lemma MarkedMembers(n: nat, marks: map<UserId, seq<nat>>, stop: nat)
    requires (forall u :: u in marks ==> InRange(marks[u], n)) && stop < n
    ensures MembersWith(n, marks, stop, Completed) == set u | u in marks && stop in marks[u]
  {
    forall u | u in marks
      ensures u in MembersWith(n, marks, stop, Completed) <==> stop in marks[u]
    {
      CompletedIffMarked(n, marks[u], stop);
    }
  }

  function Having(statuses: map<UserId, Status>, s: Status): set<UserId> {
    set u | u in statuses && statuses[u] == s
  }

  lemma StatusesCover(statuses: map<UserId, Status>)
    ensures |Having(statuses, Completed)| + |Having(statuses, Current)| + |Having(statuses, Pending)| == |statuses|
  {
    ThreeWays(statuses.Keys, Having(statuses, Completed), Having(statuses, Current), Having(statuses, Pending));
    MapSize(statuses);
  }

  /** A stop's completed count is the number of members who marked it, and the three counts cover the members once. */
  lemma TallyIsMarks(n: nat, marks: map<UserId, seq<nat>>, stop: nat)
    requires (forall u :: u in marks ==> InRange(marks[u], n)) && stop < n
    ensures var row := TallyOf(RowsAfter(n, marks), stop);
            && row.completed == |set u | u in marks && stop in marks[u]|
            && row.completed + row.current + row.pending == |marks|
  {
    TallyIsMembers(n, marks, stop);
    MarkedMembers(n, marks, stop);
    var statuses := map u | u in marks :: Run(n, marks[u]).track[stop];
    StatusesCover(statuses);
    assert forall s :: MembersWith(n, marks, stop, s) == Having(statuses, s);
    MapSize(statuses);
    MapSize(marks);
    assert statuses.Keys == marks.Keys;
  }

  // ---- The service ---------------------------------------------------------------------------------------

  datatype ProgressError = TripNotFound | NotTripMember | StopNotFound

  function IndexOf(stops: seq<StopId>, stop: StopId): (i: nat)
    ensures i <= |stops| && (i < |stops| ==> stops[i] == stop)
    ensures i == |stops| <==> stop !in stops
  {
    if stops == [] then 0
    else if stops[0] == stop then 0
    else 1 + IndexOf(stops[1..], stop)
  }

  /** The creator is a member, and so is every approved participant. */
  predicate IsMember(t: TripSeats.Trip, userId: UserId) {
    t.creator == userId || userId in TripSeats.ApprovedIn(t)
  }

  /** The user's rows in stop order, with the seed in place of those that are missing. */
  function SeededOver(rows: Rows, stops: seq<StopId>, userId: UserId): (t: Track)
    ensures |t| == |stops|
    ensures forall i :: 0 <= i < |t| ==> t[i] == if (stops[i], userId) in rows then rows[(stops[i], userId)] else SeedStatus(i)
  {
    seq(|stops|, i requires 0 <= i < |stops| => if (stops[i], userId) in rows then rows[(stops[i], userId)] else SeedStatus(i))
  }

  /** The keys of the user's rows for these stops. */
  function KeysOf(stops: seq<StopId>, userId: UserId): set<(StopId, UserId)> {
    set stop | stop in stops :: (stop, userId)
  }

  class StopProgressService {
    var rows: Rows

    constructor ()
      ensures rows == map[]
    {
      rows := map[];
    }

    ghost predicate HasTrack(stops: seq<StopId>, userId: UserId)
      reads this
    {
      forall i :: 0 <= i < |stops| ==> (stops[i], userId) in rows
    }

    /** The user's rows in stop order. */
    function TrackOf(stops: seq<StopId>, userId: UserId): (t: Track)
      requires HasTrack(stops, userId)
      reads this
      ensures |t| == |stops| && forall i :: 0 <= i < |stops| ==> t[i] == rows[(stops[i], userId)]
    {
      seq(|stops|, i requires 0 <= i < |stops| reads this requires (stops[i], userId) in rows => rows[(stops[i], userId)])
    }

    /** Rows of anyone else, or of other trips, are not touched. */
    twostate predicate OnlyTouches(stops: seq<StopId>, userId: UserId)
      reads this
    {
      rows - KeysOf(stops, userId) == old(rows) - KeysOf(stops, userId)
    }

    /** INSERT ... ON CONFLICT DO NOTHING for every stop. */
    method EnsureRowsExist(stops: seq<StopId>, userId: UserId)
      requires NoDuplicates(stops)
      modifies this
      ensures HasTrack(stops, userId) && OnlyTouches(stops, userId)
      ensures forall k :: k in old(rows) ==> k in rows && rows[k] == old(rows)[k]
      ensures TrackOf(stops, userId) == SeededOver(old(rows), stops, userId)
      ensures old(HasTrack(stops, userId)) ==> rows == old(rows)
    {
      for i := 0 to |stops|
        invariant forall j :: 0 <= j < i ==> (stops[j], userId) in rows
        invariant forall k :: k in old(rows) ==> k in rows && rows[k] == old(rows)[k]
        invariant OnlyTouches(stops, userId)
        invariant forall j :: 0 <= j < i && (stops[j], userId) !in old(rows) ==> rows[(stops[j], userId)] == SeedStatus(j)
        invariant forall j :: i <= j < |stops| && (stops[j], userId) !in old(rows) ==> (stops[j], userId) !in rows
        invariant old(HasTrack(stops, userId)) ==> rows == old(rows)
      {
        if (stops[i], userId) !in rows {
          UpdateWithin(rows, KeysOf(stops, userId), (stops[i], userId), SeedStatus(i));
          rows := rows[(stops[i], userId) := SeedStatus(i)];
        }
      }
    }

    /** Seeds what is missing, completes the stop, and makes the next pending one current. */
    method MarkComplete(trips: map<nat, TripSeats.Trip>, tripId: nat, stops: seq<StopId>, userId: UserId, stop: StopId)
        returns (r: Result<(), ProgressError>)
      requires NoDuplicates(stops)
      modifies this
      ensures r == if tripId !in trips then Err(TripNotFound)
                   else if !IsMember(trips[tripId], userId) then Err(NotTripMember)
                   else if stop !in stops then Err(StopNotFound) else Ok(())
      // Members are the creator and those whose row is approved; a waiting, rejected or former one is none.
      ensures r == Err(NotTripMember) <==>
              && tripId in trips && userId != trips[tripId].creator
              && (userId in trips[tripId].participants ==> trips[tripId].participants[userId].status != TripSeats.Approved)
      ensures r.Ok? ==> (stop, userId) in rows && rows[(stop, userId)] == Completed
      ensures r.Err? ==> rows == old(rows)
      ensures r.Ok? ==> HasTrack(stops, userId) && OnlyTouches(stops, userId)
      ensures r.Ok? ==> stop in stops && IndexOf(stops, stop) < |stops|
      ensures r.Ok? ==> TrackOf(stops, userId) == Complete(SeededOver(old(rows), stops, userId), IndexOf(stops, stop))
    {
      if tripId !in trips {
        return Err(TripNotFound);
      }
      var trip := trips[tripId];
      if trip.creator != userId && !(userId in trip.participants && trip.participants[userId].status.Approved?) {
        return Err(NotTripMember);
      }
      if stop !in stops {
        return Err(StopNotFound);
      }
      EnsureRowsExist(stops, userId);
      ghost var before := TrackOf(stops, userId);
      ghost var i := IndexOf(stops, stop);
      r := Ok(());
      if rows[(stop, userId)].Completed? {
        assert TrackOf(stops, userId) == Complete(before, i);
        return;
      }
      UpdateWithin(rows, KeysOf(stops, userId), (stop, userId), Completed);
      rows := rows[(stop, userId) := Completed];
      assert TrackOf(stops, userId) == before[i := Completed];
      var next := FirstPending(TrackOf(stops, userId));
      if next < |stops| {
        UpdateWithin(rows, KeysOf(stops, userId), (stops[next], userId), Current);
        rows := rows[(stops[next], userId) := Current];
      }
      assert TrackOf(stops, userId) == Complete(before, i);
    }
  }
}
