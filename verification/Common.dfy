/** Small shared definitions: optional values, results, and facts about sequences and finite sets. */
module Common {

  datatype Option<+T> = None | Some(value: T)

  datatype Result<+T, +E> = Ok(value: T) | Err(error: E)

  function Min(a: int, b: int): int {
    if a < b then a else b
  }

  function Max(a: int, b: int): int {
    if a < b then b else a
  }

  /** A condition under which a request is refused, and the error it is refused with. */
  datatype Check<E> = Check(broken: bool, error: E)

  /** The first of the checks that is broken. */
  function First<E>(checks: seq<Check<E>>): Option<E> {
    if checks == [] then None
    else if checks[0].broken then Some(checks[0].error)
    else First(checks[1..])
  }

  lemma FirstOfSix<E>(checks: seq<Check<E>>)
    requires |checks| <= 6
    ensures First(checks) ==
            if |checks| > 0 && checks[0].broken then Some(checks[0].error)
            else if |checks| > 1 && checks[1].broken then Some(checks[1].error)
            else if |checks| > 2 && checks[2].broken then Some(checks[2].error)
            else if |checks| > 3 && checks[3].broken then Some(checks[3].error)
            else if |checks| > 4 && checks[4].broken then Some(checks[4].error)
            else if |checks| > 5 && checks[5].broken then Some(checks[5].error)
            else None
  {
    if checks != [] {
      FirstOfSix(checks[1..]);
    }
  }

  /** The elements that satisfy `p`, in their order: Array.filter, or the WHERE clause of a query. */
  function Filter<T>(s: seq<T>, p: T -> bool): seq<T> {
    if s == [] then []
    else (if p(s[0]) then [s[0]] else []) + Filter(s[1..], p)
  }

  /** Array.map. */
  function Map<T, U>(f: T -> U, s: seq<T>): (r: seq<U>)
    ensures |r| == |s| && forall i :: 0 <= i < |s| ==> r[i] == f(s[i])
  {
    seq(|s|, i requires 0 <= i < |s| => f(s[i]))
  }

  function Reverse<T>(s: seq<T>): (r: seq<T>)
    ensures |r| == |s| && forall i :: 0 <= i < |s| ==> r[i] == s[|s| - 1 - i]
  {
    seq(|s|, i requires 0 <= i < |s| => s[|s| - 1 - i])
  }

  ghost predicate NoDuplicates<T>(s: seq<T>) {
    forall i, j :: 0 <= i < j < |s| ==> s[i] != s[j]
  }

  lemma FilterCons<T>(x: T, s: seq<T>, p: T -> bool)
    ensures Filter([x] + s, p) == (if p(x) then [x] else []) + Filter(s, p)
  {
    assert ([x] + s)[1..] == s;
  }

  lemma {:induction false} FilterConcat<T>(a: seq<T>, b: seq<T>, p: T -> bool)
    ensures Filter(a + b, p) == Filter(a, p) + Filter(b, p)
  {
    if a == [] {
      assert a + b == b;
      assert [] + Filter(b, p) == Filter(b, p);
    } else {
      FilterConcat(a[1..], b, p);
      var head := if p(a[0]) then [a[0]] else [];
      assert a + b == [a[0]] + (a[1..] + b);
      FilterCons(a[0], a[1..] + b, p);
      FilterCons(a[0], a[1..], p);
      assert [a[0]] + a[1..] == a;
      assert head + (Filter(a[1..], p) + Filter(b, p)) == (head + Filter(a[1..], p)) + Filter(b, p);
    }
  }

  lemma {:induction false} FilterMembers<T>(s: seq<T>, p: T -> bool)
    ensures forall x :: x in Filter(s, p) <==> x in s && p(x)
  {
    if s != [] {
      FilterMembers(s[1..], p);
      assert s == [s[0]] + s[1..];
    }
  }

  lemma {:induction false} FilterNothing<T>(s: seq<T>, p: T -> bool)
    requires forall x :: x in s ==> !p(x)
    ensures Filter(s, p) == []
  {
    if s != [] {
      FilterNothing(s[1..], p);
    }
  }

  lemma {:induction false} FilterNoDuplicates<T>(s: seq<T>, p: T -> bool)
    requires NoDuplicates(s)
    ensures NoDuplicates(Filter(s, p))
  {
    if s != [] {
      FilterNoDuplicates(s[1..], p);
      FilterMembers(s[1..], p);
      assert s[0] !in s[1..];
    }
  }

  /** Filtering keeps the order of the elements. */
  lemma {:induction false} FilterKeepsOrder<T>(s: seq<T>, p: T -> bool, i: nat, j: nat, a: nat, b: nat)
    requires NoDuplicates(s) && i < j < |Filter(s, p)| && a < |s| && b < |s|
    requires s[a] == Filter(s, p)[i] && s[b] == Filter(s, p)[j]
    ensures a < b
  {
    var rest := Filter(s[1..], p);
    if p(s[0]) {
      assert Filter(s, p) == [s[0]] + rest;
      FilteredLater(s, p, j - 1, b);
      if i > 0 {
        FilteredLater(s, p, i - 1, a);
        FilterKeepsOrder(s[1..], p, i - 1, j - 1, a - 1, b - 1);
      }
    } else {
      assert Filter(s, p) == rest;
      FilteredLater(s, p, i, a);
      FilteredLater(s, p, j, b);
      FilterKeepsOrder(s[1..], p, i, j, a - 1, b - 1);
    }
  }

  /** What is filtered out of the rest is not the first element. */
  lemma FilteredLater<T>(s: seq<T>, p: T -> bool, i: nat, a: nat)
    requires NoDuplicates(s) && s != [] && i < |Filter(s[1..], p)| && a < |s| && s[a] == Filter(s[1..], p)[i]
    ensures a >= 1 && s[1..][a - 1] == s[a]
  {
    FilterMembers(s[1..], p);
    assert Filter(s[1..], p)[i] in Filter(s[1..], p);
    assert s[0] !in s[1..];
  }

  /** `sub` has its elements in the order of `s`. */
  ghost predicate InOrderOf<T>(sub: seq<T>, s: seq<T>) {
    forall i, j, a, b ::
      (0 <= i < j < |sub| && 0 <= a < |s| && 0 <= b < |s| && s[a] == sub[i] && s[b] == sub[j]) ==> a < b
  }

  lemma FilterInOrder<T>(s: seq<T>, p: T -> bool)
    requires NoDuplicates(s)
    ensures NoDuplicates(Filter(s, p)) && InOrderOf(Filter(s, p), s)
  {
    FilterNoDuplicates(s, p);
    forall i, j, a, b | 0 <= i < j < |Filter(s, p)| && 0 <= a < |s| && 0 <= b < |s| && s[a] == Filter(s, p)[i] && s[b] == Filter(s, p)[j]
      ensures a < b
    {
      FilterKeepsOrder(s, p, i, j, a, b);
    }
  }

  lemma HasElement<T>(s: seq<T>)
    requires s != []
    ensures exists x :: x in s
  {
    assert s[0] in s;
  }

  /** Two duplicate-free sequences over the same elements are permutations of each other. */
  lemma {:induction false} SameElementsSameMultiset<T>(a: seq<T>, b: seq<T>)
    requires NoDuplicates(a) && NoDuplicates(b)
    requires forall x :: x in a <==> x in b
    ensures multiset(a) == multiset(b)
  {
    forall x
      ensures multiset(a)[x] == multiset(b)[x]
    {
      CountNoDuplicates(a, x);
      CountNoDuplicates(b, x);
    }
  }

  lemma {:induction false} CountNoDuplicates<T>(s: seq<T>, x: T)
    requires NoDuplicates(s)
    ensures multiset(s)[x] == if x in s then 1 else 0
  {
    if s != [] {
      assert s == [s[0]] + s[1..];
      CountNoDuplicates(s[1..], x);
    }
  }

  lemma {:induction false} SubsetSmaller<T>(a: set<T>, b: set<T>)
    requires a <= b
    ensures |a| <= |b|
  {
    if a != {} {
      var x :| x in a;
      SubsetSmaller(a - {x}, b - {x});
    }
  }

  lemma MapSize<K, V>(m: map<K, V>)
    ensures |m.Keys| == |m|
  {
  }

  /** The positions from `lo` up to, not including, `hi`. */
  function Range(lo: nat, hi: nat): (r: set<nat>)
    ensures forall i :: i in r <==> lo <= i < hi
    decreases hi - lo
  {
    if lo >= hi then {} else {lo} + Range(lo + 1, hi)
  }

  lemma {:induction false} RangeSize(n: nat)
    ensures |Range(0, n)| == n
  {
    if n > 0 {
      RangeSize(n - 1);
      assert Range(0, n) == Range(0, n - 1) + {n - 1};
    }
  }

  lemma UpdateTwice<K, V>(m: map<K, V>, k: K, a: V, b: V)
    ensures m[k := a][k := b] == m[k := b]
  {
  }

  lemma UpdateThenRemove<K, V>(m: map<K, V>, k: K, a: V)
    requires k !in m
    ensures m[k := a] - {k} == m
  {
  }

  lemma UpdateWithin<K, V>(m: map<K, V>, keys: set<K>, k: K, v: V)
    requires k in keys
    ensures m[k := v] - keys == m - keys
  {
  }

  /** A finite set of numbers misses some number. */
  lemma {:induction false} SomeFresh(s: set<nat>)
    ensures exists w: nat :: w !in s
  {
    var bound := Bound(s);
    assert bound !in s;
  }

  ghost function Bound(s: set<nat>): (b: nat)
    ensures forall x :: x in s ==> x < b
  {
    if s == {} then 0
    else
      var x :| x in s;
      var b' := Bound(s - {x});
      assert forall y :: y in s ==> y == x || y in s - {x};
      if x < b' then b' else x + 1
  }
}
