/** Counting the instants of a sorted history that fall into a window of time. */
module Windows {
  import opened Common

  ghost predicate Sorted(ts: seq<int>) {
    forall i, j :: 0 <= i < j < |ts| ==> ts[i] <= ts[j]
  }

  /** How many lie in [from, to). */
  function CountIn(ts: seq<int>, from: int, to: int): nat {
    if ts == [] then 0
    else CountIn(ts[..|ts| - 1], from, to) + if from <= ts[|ts| - 1] < to then 1 else 0
  }

  /** Every instant is at least `width` later than the one `limit` places before it. */
  ghost predicate Spaced(ts: seq<int>, limit: nat, width: int) {
    forall k :: limit <= k < |ts| ==> ts[k - limit] + width <= ts[k]
  }

  lemma SpacedSnoc(ts: seq<int>, limit: nat, width: int, t: int)
    requires Sorted(ts) && Spaced(ts, limit, width) && (ts != [] ==> ts[|ts| - 1] <= t)
    requires |ts| >= limit >= 1 ==> ts[|ts| - limit] + width <= t
    ensures Sorted(ts + [t]) && (limit >= 1 ==> Spaced(ts + [t], limit, width))
  {
  }

  lemma CountSnoc(ts: seq<int>, t: int, from: int, to: int)
    ensures CountIn(ts + [t], from, to) == CountIn(ts, from, to) + if from <= t < to then 1 else 0
  {
    assert (ts + [t])[..|ts|] == ts;
  }

  lemma {:induction false} CountTail(ts: seq<int>, from: int, to: int, i: nat)
    requires i <= |ts| && forall j :: 0 <= j < i ==> ts[j] < from
    ensures CountIn(ts, from, to) <= |ts| - i
  {
    if ts != [] {
      CountTail(ts[..|ts| - 1], from, to, Min(i, |ts| - 1));
    }
  }

  /** Spaced instants fill no window of that width beyond the limit, wherever the window lies. */
  lemma {:induction false} SpacedBoundsWindow(ts: seq<int>, limit: nat, width: int, from: int)
    requires Sorted(ts) && Spaced(ts, limit, width)
    ensures CountIn(ts, from, from + width) <= limit
  {
    if ts != [] {
      var init, last := ts[..|ts| - 1], ts[|ts| - 1];
      SpacedBoundsWindow(init, limit, width, from);
      if from <= last < from + width {
        if limit < |ts| {
          assert forall j :: 0 <= j < |ts| - limit ==> ts[j] <= ts[|ts| - 1 - limit];
          CountTail(ts, from, from + width, |ts| - limit);
        } else {
          CountTail(ts, from, from + width, 0);
        }
      }
    }
  }

  lemma {:induction false} CountConcat(a: seq<int>, b: seq<int>, from: int, to: int)
    ensures CountIn(a + b, from, to) == CountIn(a, from, to) + CountIn(b, from, to)
  {
    if b == [] {
      assert a + b == a;
    } else {
      assert (a + b)[..|a + b| - 1] == a + b[..|b| - 1];
      CountConcat(a, b[..|b| - 1], from, to);
    }
  }

  lemma {:induction false} CountAll(ts: seq<int>, from: int, to: int)
    requires forall i :: 0 <= i < |ts| ==> from <= ts[i] < to
    ensures CountIn(ts, from, to) == |ts|
  {
    if ts != [] {
      CountAll(ts[..|ts| - 1], from, to);
    }
  }

  lemma {:induction false} CountSplit(ts: seq<int>, from: int, mid: int, to: int)
    requires from <= mid <= to
    ensures CountIn(ts, from, to) == CountIn(ts, from, mid) + CountIn(ts, mid, to)
  {
    if ts != [] {
      CountSplit(ts[..|ts| - 1], from, mid, to);
    }
  }

  lemma {:induction false} CountMonotone(ts: seq<int>, from: int, to: int, to': int)
    requires to <= to'
    ensures CountIn(ts, from, to) <= CountIn(ts, from, to')
  {
    if ts != [] {
      CountMonotone(ts[..|ts| - 1], from, to, to');
    }
  }

  /** Spaced instants: at most `limit` for each width in a window of `n` widths. */
  lemma {:induction false} SpacedBoundsWidths(ts: seq<int>, limit: nat, width: nat, from: int, to: int, n: nat)
    requires Sorted(ts) && Spaced(ts, limit, width) && to <= from + n * width
    ensures CountIn(ts, from, to) <= limit * n
    decreases n
  {
    CountMonotone(ts, from, to, from + n * width);
    if n == 0 {
      CountEmpty(ts, from);
    } else {
      var mid := from + (n - 1) * width;
      assert mid + width == from + n * width;
      SpacedBoundsWidths(ts, limit, width, from, mid, n - 1);
      CountSplit(ts, from, mid, mid + width);
      SpacedBoundsWindow(ts, limit, width, mid);
      assert limit * (n - 1) + limit == limit * n;
    }
  }

  lemma {:induction false} CountEmpty(ts: seq<int>, from: int)
    ensures CountIn(ts, from, from) == 0
  {
    if ts != [] {
      CountEmpty(ts[..|ts| - 1], from);
    }
  }
}
