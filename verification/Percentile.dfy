/** The percentile and median of utils.cpp, over real numbers. */
module Percentile {
  import opened Wrappers

  // ------------------------------------------------------------------------- sorting

  ghost predicate Sorted(s: seq<real>) {
    forall i, j | 0 <= i < j < |s| :: s[i] <= s[j]
  }

  /** Where x goes in a sorted sequence, after its equals. */
  function Place(x: real, s: seq<real>): (k: nat)
    ensures k <= |s| && (k > 0 ==> s[k - 1] <= x)
    ensures forall i | k <= i < |s| :: x < s[i]
  {
    if s == [] || s[|s| - 1] <= x then |s| else Place(x, s[..|s| - 1])
  }

  function Insert(x: real, s: seq<real>): seq<real> {
    s[..Place(x, s)] + [x] + s[Place(x, s)..]
  }

  function SortedOf(s: seq<real>): (r: seq<real>)
    ensures |r| == |s|
  {
    if s == [] then [] else Insert(s[|s| - 1], SortedOf(s[..|s| - 1]))
  }

  lemma {:induction false} SortedOfIsSorted(s: seq<real>)
    ensures Sorted(SortedOf(s))
  {
    if s != [] {
      var x, t := s[|s| - 1], SortedOf(s[..|s| - 1]);
      SortedOfIsSorted(s[..|s| - 1]);
      hide SortedOf;
      InsertIsSorted(x, t);
    }
  }

  lemma InsertIsSorted(x: real, s: seq<real>)
    requires Sorted(s)
    ensures Sorted(Insert(x, s))
  {
    hide Place;
    assert forall i | 0 <= i < Place(x, s) :: s[i] <= x;
  }

  lemma {:induction false} SortedOfIsPermutation(s: seq<real>)
    ensures multiset(SortedOf(s)) == multiset(s)
  {
    if s != [] {
      var front, x := s[..|s| - 1], s[|s| - 1];
      SortedOfIsPermutation(front);
      InsertIsPermutation(x, SortedOf(front));
      hide Insert;
      assert s == front + [x];
    }
  }

  lemma InsertIsPermutation(x: real, s: seq<real>)
    ensures multiset(Insert(x, s)) == multiset(s) + multiset{x}
  {
    hide Place;
    var front, back := s[..Place(x, s)], s[Place(x, s)..];
    assert s == front + back;
    assert multiset(front + [x] + back) == multiset(front) + multiset{x} + multiset(back);
  }

  /** Sorting has one answer: whatever the algorithm, a sorted permutation of s is SortedOf(s). */
  lemma {:induction false} SortedIsUnique(a: seq<real>, b: seq<real>)
    requires Sorted(a) && Sorted(b) && multiset(a) == multiset(b)
    ensures a == b
  {
    hide Sorted;
    assert |a| == |multiset(a)| == |multiset(b)| == |b|;
    if a != [] {
      var m := |a| - 1;
      DropLast(a);
      DropLast(b);
      assert a[m] == b[m] by {
        LastIsLargest(b, a[m]);
        LastIsLargest(a, b[m]);
      }
      SortedIsUnique(a[..m], b[..m]);
    }
  }

  lemma DropLast(s: seq<real>)
    requires Sorted(s) && s != []
    ensures Sorted(s[..|s| - 1])
    ensures s == s[..|s| - 1] + [s[|s| - 1]]
    ensures multiset(s[..|s| - 1]) == multiset(s) - multiset{s[|s| - 1]}
    ensures s[|s| - 1] in multiset(s)
  {
    assert s == s[..|s| - 1] + [s[|s| - 1]];
  }

  lemma LastIsLargest(s: seq<real>, x: real)
    requires Sorted(s) && x in multiset(s)
    ensures s != [] && x <= s[|s| - 1]
  {
    assert x in s;
    var k :| 0 <= k < |s| && s[k] == x;
  }

  /** std::sort on the copy: any in-place sort will do, this one inserts. */
  method Sort(v: array<real>)
    modifies v
    ensures v[..] == SortedOf(old(v[..]))
  {
    ghost var s := v[..];
    for i := 0 to v.Length
      invariant v[..i] == SortedOf(s[..i])
      invariant v[i..] == s[i..]
    {
      assert s[..i + 1][..i] == s[..i] && v[i] == s[i..][0];
      ghost var rest := v[i + 1..];
      assert rest == s[i..][1..] == s[i + 1..];
      hide SortedOf, Insert;
      Sink(v, i);
    }
    assert s[..v.Length] == s && v[..v.Length] == v[..];
  }

  method Sink(v: array<real>, i: nat)
    requires i < v.Length
    modifies v
    ensures v[..i + 1] == Insert(old(v[i]), old(v[..i]))
    ensures v[i + 1..] == old(v[i + 1..])
  {
    var x := v[i];
    ghost var t := v[..i];
    var j := i;
    while j > 0 && x < v[j - 1]
      invariant j <= i
      invariant forall k | 0 <= k < j :: v[k] == t[k]
      invariant forall k | j <= k < i :: v[k + 1] == t[k] && x < t[k]
      invariant v[i + 1..] == old(v[i + 1..])
    {
      v[j] := v[j - 1];
      j := j - 1;
    }
    v[j] := x;
    InsertIs(x, t, j, v[..i + 1]);
  }

  lemma InsertIs(x: real, t: seq<real>, j: nat, s: seq<real>)
    requires j <= |t| && |s| == |t| + 1 && s[j] == x && (j > 0 ==> t[j - 1] <= x)
    requires forall k | 0 <= k < j :: s[k] == t[k]
    requires forall k | j <= k < |t| :: s[k + 1] == t[k] && x < t[k]
    ensures s == Insert(x, t)
  {
    PlaceIs(x, t, j);
    hide Place;
    assert s == t[..j] + [x] + t[j..];
  }

  lemma {:induction false} PlaceIs(x: real, s: seq<real>, k: nat)
    requires k <= |s| && (k > 0 ==> s[k - 1] <= x) && forall i | k <= i < |s| :: x < s[i]
    ensures k == Place(x, s)
  {
    if k < |s| {
      PlaceIs(x, s[..|s| - 1], k);
    }
  }

  // ----------------------------------------------------------------------- percentile

  function Ceil(x: real): int {
    -(-x).Floor
  }

  /** The value at a real position of a sequence: an element, or the line between two. */
  function At(s: seq<real>, pivot: real): real
    requires 0 <= pivot.Floor && Ceil(pivot) < |s|
  {
    if pivot.Floor == Ceil(pivot) then s[pivot.Floor]
    else s[pivot.Floor] * (Ceil(pivot) as real - pivot) + s[Ceil(pivot)] * (pivot - pivot.Floor as real)
  }

  function Pivot(n: nat, percent: real): real
    requires n > 0
  {
    (n - 1) as real * percent
  }

  /** Both subscripts are in bounds exactly for these arguments; one element suits any percent. */
  lemma InBoundsIff(n: nat, percent: real)
    requires n > 0
    ensures 0 <= Pivot(n, percent).Floor && Ceil(Pivot(n, percent)) < n <==>
      n == 1 || 0.0 <= percent <= 1.0
  {
    PivotRange(n, percent);
    hide Pivot;
    CeilIsNext(Pivot(n, percent));
  }

  lemma PivotRange(n: nat, percent: real)
    requires n > 0
    ensures 0.0 <= Pivot(n, percent) <= (n - 1) as real <==> n == 1 || 0.0 <= percent <= 1.0
  {
    if n > 1 {
      Scaled((n - 1) as real, percent);
    } else {
      assert (n - 1) as real == 0.0;
      assert 0.0 * percent == 0.0;
    }
  }

  lemma Scaled(m: real, percent: real)
    requires m > 0.0
    ensures m * percent < 0.0 <==> percent < 0.0
    ensures m * percent > m <==> percent > 1.0
  {
    assert m * percent - m == m * (percent - 1.0);
  }

  /** The arguments a percentile is defined for. */
  predicate InRange(v: seq<real>, percent: real) {
    v != [] && (|v| == 1 || 0.0 <= percent <= 1.0)
  }

  /** What percentile computes of a non-empty vector. */
  function Quantile(v: seq<real>, percent: real): real
    requires InRange(v, percent)
  {
    InBoundsIff(|v|, percent);
    At(SortedOf(v), Pivot(|v|, percent))
  }

  method Percentile(v: seq<real>, percent: real) returns (r: Option<real>)
    requires |v| <= 1 || 0.0 <= percent <= 1.0
    ensures r == if v == [] then None else Some(Quantile(v, percent))
  {
    if |v| <= 0 {
      return None;
    }
    var a := new real[|v|](i requires 0 <= i < |v| => v[i]);
    assert a[..] == v;
    Sort(a);
    InBoundsIff(|v|, percent);
    hide SortedOf;
    var value := Evaluate(a, Pivot(a.Length, percent));
    return Some(value);
  }

  /** The subscripts and the weights. */
  method Evaluate(v: array<real>, pivot: real) returns (r: real)
    requires 0 <= pivot.Floor && Ceil(pivot) < v.Length
    ensures r == At(v[..], pivot)
  {
    var floor, ceil := pivot.Floor, Ceil(pivot);
    if floor == ceil {
      return v[floor];
    }
    var val0 := v[floor] * (ceil as real - pivot);
    var val1 := v[ceil] * (pivot - floor as real);
    return val0 + val1;
  }

  method Median(v: seq<real>) returns (r: Option<real>)
    ensures r == if v == [] then None else Some(Quantile(v, 0.5))
  {
    r := Percentile(v, 0.5);
  }

  // ------------------------------------------------------------------------- the laws

  /** The point at `t` on the line from `a` to `b`. */
  function Line(a: real, b: real, t: real): real {
    a * (1.0 - t) + b * t
  }

  lemma LineIsOffset(a: real, b: real, t: real)
    ensures Line(a, b, t) == a + (b - a) * t == b - (b - a) * (1.0 - t)
  {
    assert a * (1.0 - t) == a - a * t;
    assert (b - a) * t == b * t - a * t;
    assert (b - a) * (1.0 - t) == (b - a) - (b - a) * t;
  }

  lemma LineStaysBetween(a: real, b: real, t: real)
    requires a <= b && 0.0 <= t <= 1.0
    ensures a <= Line(a, b, t) <= b
  {
    LineIsOffset(a, b, t);
    ProductIsPositive(b - a, t);
    ProductIsPositive(b - a, 1.0 - t);
    hide Line;
  }

  lemma LineRises(a: real, b: real, t: real, u: real)
    requires a <= b && t <= u
    ensures Line(a, b, t) <= Line(a, b, u)
  {
    LineIsOffset(a, b, t);
    LineIsOffset(a, b, u);
    hide Line;
    ProductIsPositive(b - a, u - t);
    assert (b - a) * u == (b - a) * t + (b - a) * (u - t);
  }

  lemma ProductIsPositive(x: real, y: real)
    requires x >= 0.0 && y >= 0.0
    ensures x * y >= 0.0
  {
  }

  lemma CeilIsNext(x: real)
    ensures Ceil(x) == if x == x.Floor as real then x.Floor else x.Floor + 1
  {
  }

  lemma AtIsOnLine(s: seq<real>, pivot: real)
    requires 0 <= pivot.Floor && Ceil(pivot) < |s| && pivot.Floor != Ceil(pivot)
    ensures var t := pivot - pivot.Floor as real;
      At(s, pivot) == Line(s[pivot.Floor], s[Ceil(pivot)], t)
  {
    CeilIsNext(pivot);
    assert Ceil(pivot) as real - pivot == 1.0 - (pivot - pivot.Floor as real);
  }

  /** The result lies between the two neighbouring order statistics. */
  lemma AtIsBetween(s: seq<real>, pivot: real)
    requires Sorted(s) && 0 <= pivot.Floor && Ceil(pivot) < |s|
    ensures pivot.Floor <= Ceil(pivot)
    ensures s[pivot.Floor] <= At(s, pivot) <= s[Ceil(pivot)]
  {
    CeilIsNext(pivot);
    if pivot.Floor != Ceil(pivot) {
      hide At, Line;
      AtIsOnLine(s, pivot);
      LineStaysBetween(s[pivot.Floor], s[Ceil(pivot)], pivot - pivot.Floor as real);
    }
  }

  lemma AtIsMonotone(s: seq<real>, x: real, y: real)
    requires Sorted(s) && 0.0 <= x <= y && Ceil(y) < |s|
    ensures Ceil(x) < |s| && At(s, x) <= At(s, y)
  {
    CeilIsNext(x);
    CeilIsNext(y);
    if x.Floor < y.Floor || x == x.Floor as real || Ceil(x) != Ceil(y) {
      AtIsBetween(s, x);
      AtIsBetween(s, y);
      hide At;
      assert x.Floor <= y.Floor;
    } else {
      hide At, Line;
      AtIsOnLine(s, x);
      AtIsOnLine(s, y);
      LineRises(s[x.Floor], s[Ceil(x)], x - x.Floor as real, y - x.Floor as real);
    }
  }

  lemma PivotIsMonotone(n: nat, p: real, q: real)
    requires n > 0 && p <= q
    ensures Pivot(n, p) <= Pivot(n, q)
  {
    assert Pivot(n, q) - Pivot(n, p) == (n - 1) as real * (q - p);
  }

  /**
   * The percentile is the interpolation of the order statistics: the k-th of them (from 0)
   * stands at k / (n - 1), and in between the line from each to the next.
   */
  lemma QuantileInterpolates(v: seq<real>, k: nat, t: real)
    requires k < |v| - 1 && 0.0 <= t <= 1.0
    ensures 0.0 <= (k as real + t) / (|v| - 1) as real <= 1.0
    ensures Quantile(v, (k as real + t) / (|v| - 1) as real) ==
      (1.0 - t) * SortedOf(v)[k] + t * SortedOf(v)[k + 1]
  {
    hide Quantile, SortedOf;
    Position(k, t, |v| - 1);
    QuantileAtPosition(v, (k as real + t) / (|v| - 1) as real, k, t);
  }

  lemma QuantileAtPosition(v: seq<real>, p: real, k: nat, t: real)
    requires k < |v| - 1 && 0.0 <= t <= 1.0 && 0.0 <= p <= 1.0 && (|v| - 1) as real * p == k as real + t
    ensures Quantile(v, p) == (1.0 - t) * SortedOf(v)[k] + t * SortedOf(v)[k + 1]
  {
    hide SortedOf, Pivot, Quantile, At;
    PivotIs(|v|, p, k as real + t);
    var value := QuantileAtPivot(v, p, k, t);
  }

  lemma QuantileAtPivot(v: seq<real>, p: real, k: nat, t: real) returns (value: real)
    requires k < |v| - 1 && 0.0 <= t <= 1.0 && 0.0 <= p <= 1.0 && Pivot(|v|, p) == k as real + t
    ensures value == (1.0 - t) * SortedOf(v)[k] + t * SortedOf(v)[k + 1]
    ensures Quantile(v, p) == value
  {
    hide SortedOf, Pivot, Quantile, At;
    AtPosition(SortedOf(v), k, t);
    QuantileIs(v, p, k as real + t);
    value := Quantile(v, p);
  }

  lemma QuantileIs(v: seq<real>, p: real, x: real)
    requires InRange(v, p) && Pivot(|v|, p) == x && 0 <= x.Floor && Ceil(x) < |v|
    ensures Quantile(v, p) == At(SortedOf(v), x)
  {
    hide SortedOf, At, Pivot;
  }

  lemma PivotIs(n: nat, p: real, x: real)
    requires n > 0 && (n - 1) as real * p == x
    ensures Pivot(n, p) == x
  {
  }

  lemma AtPosition(s: seq<real>, k: nat, t: real)
    requires k + 1 < |s| && 0.0 <= t <= 1.0
    ensures 0 <= (k as real + t).Floor && Ceil(k as real + t) < |s|
    ensures At(s, k as real + t) == (1.0 - t) * s[k] + t * s[k + 1]
  {
    var pivot := k as real + t;
    CeilIsNext(pivot);
    if 0.0 < t < 1.0 {
      assert pivot.Floor == k;
      AtIsOnLine(s, pivot);
      hide At;
    } else {
      assert pivot.Floor == (if t == 0.0 then k else k + 1) == Ceil(pivot);
      assert t == 0.0 || t == 1.0;
    }
  }

  lemma Position(k: nat, t: real, m: nat)
    requires k < m && 0.0 <= t <= 1.0
    ensures 0.0 <= (k as real + t) / m as real <= 1.0
    ensures m as real * ((k as real + t) / m as real) == k as real + t
  {
    assert k as real + 1.0 <= m as real;
  }

  /** Every percent stands somewhere between two neighbours, so this is the whole percentile. */
  lemma PositionOf(n: nat, percent: real) returns (k: nat, t: real)
    requires n > 1 && 0.0 <= percent <= 1.0
    ensures k < n - 1 && 0.0 <= t <= 1.0 && percent == (k as real + t) / (n - 1) as real
  {
    var m := (n - 1) as real;
    var pivot := m * percent;
    Scaled(m, percent);
    Quotient(m, percent);
    k := if pivot.Floor < n - 1 then pivot.Floor else n - 2;
    t := pivot - k as real;
    assert k as real + t == pivot;
  }

  lemma Quotient(m: real, percent: real)
    requires m > 0.0
    ensures percent == m * percent / m
  {
  }

  /** The middle value of an odd number, the mean of the two middle values of an even one. */
  lemma MedianMeaning(v: seq<real>)
    requires v != []
    ensures |v| % 2 == 1 ==> Quantile(v, 0.5) == SortedOf(v)[|v| / 2]
    ensures |v| % 2 == 0 ==> Quantile(v, 0.5) == (SortedOf(v)[|v| / 2 - 1] + SortedOf(v)[|v| / 2]) / 2.0
  {
    hide Quantile, SortedOf;
    if |v| == 1 {
      QuantileOfOne(v, 0.5);
      SortedOfOne(v);
    } else if |v| % 2 == 1 {
      assert (|v| - 1) as real * 0.5 == (|v| / 2) as real + 0.0;
      QuantileAtPosition(v, 0.5, |v| / 2, 0.0);
    } else {
      assert (|v| - 1) as real * 0.5 == (|v| / 2 - 1) as real + 0.5;
      QuantileAtPosition(v, 0.5, |v| / 2 - 1, 0.5);
    }
  }

  lemma SortedOfOne(v: seq<real>)
    requires |v| == 1
    ensures SortedOf(v)[0] == v[0]
  {
    SortedOfIsPermutation(v);
    assert SortedOf(v)[0] in multiset(SortedOf(v));
    assert SortedOf(v)[0] in v;
  }

  lemma QuantileOfOne(v: seq<real>, percent: real)
    requires |v| == 1
    ensures Quantile(v, percent) == v[0]
  {
    SortedOfIsPermutation(v);
    var s := SortedOf(v);
    assert s == [s[0]] && v == [v[0]];
    assert s[0] in multiset(v);
  }

  /** A larger percent never gives a smaller percentile. */
  lemma QuantileIsMonotone(v: seq<real>, p: real, q: real)
    requires InRange(v, p) && InRange(v, q) && p <= q
    ensures Quantile(v, p) <= Quantile(v, q)
  {
    SortedOfIsSorted(v);
    PivotIsMonotone(|v|, p, q);
    InBoundsIff(|v|, p);
    InBoundsIff(|v|, q);
    hide SortedOf, Sorted, Pivot, At;
    AtIsMonotone(SortedOf(v), Pivot(|v|, p), Pivot(|v|, q));
  }

  /** Only the values count, not their order. */
  lemma QuantileIgnoresOrder(v: seq<real>, w: seq<real>, percent: real)
    requires InRange(v, percent) && multiset(v) == multiset(w)
    ensures |v| == |w| && Quantile(v, percent) == Quantile(w, percent)
  {
    SortedOfIsSorted(v);
    SortedOfIsSorted(w);
    SortedOfIsPermutation(v);
    SortedOfIsPermutation(w);
    SortedIsUnique(SortedOf(v), SortedOf(w));
  }

  /** At percent 0 and 1 stand the least and the greatest value. */
  lemma ExtremesAreOrderStatistics(v: seq<real>, x: real)
    requires x in v
    ensures Quantile(v, 0.0) in v && Quantile(v, 1.0) in v
    ensures Quantile(v, 0.0) <= x <= Quantile(v, 1.0)
  {
    var s := SortedOf(v);
    SortedOfIsSorted(v);
    SortedOfIsPermutation(v);
    QuantileAtEnds(v);
    hide SortedOf, Sorted, Quantile;
    assert x in multiset(v);
    LastIsLargest(s, x);
    FirstIsLeast(s, x);
    assert s[0] in multiset(s) && s[|s| - 1] in multiset(s);
  }

  lemma QuantileAtEnds(v: seq<real>)
    requires v != []
    ensures Quantile(v, 0.0) == SortedOf(v)[0] && Quantile(v, 1.0) == SortedOf(v)[|v| - 1]
  {
    hide SortedOf;
    assert Pivot(|v|, 0.0) == 0.0 && Pivot(|v|, 1.0) == (|v| - 1) as real;
  }

  lemma FirstIsLeast(s: seq<real>, x: real)
    requires Sorted(s) && x in multiset(s)
    ensures s != [] && s[0] <= x
  {
    var k :| 0 <= k < |s| && s[k] == x;
  }

  // How many values are at most m, and at least m.
  function AtMost(v: seq<real>, m: real): nat {
    if v == [] then 0 else (if v[|v| - 1] <= m then 1 else 0) + AtMost(v[..|v| - 1], m)
  }

  function AtLeast(v: seq<real>, m: real): nat {
    if v == [] then 0 else (if v[|v| - 1] >= m then 1 else 0) + AtLeast(v[..|v| - 1], m)
  }

  lemma {:induction false} CountsAppend(a: seq<real>, b: seq<real>, m: real)
    ensures AtMost(a + b, m) == AtMost(a, m) + AtMost(b, m)
    ensures AtLeast(a + b, m) == AtLeast(a, m) + AtLeast(b, m)
  {
    if b == [] {
      assert a + b == a;
    } else {
      assert (a + b)[..|a + b| - 1] == a + b[..|b| - 1];
      CountsAppend(a, b[..|b| - 1], m);
    }
  }

  lemma InsertCounts(x: real, t: seq<real>, m: real)
    ensures AtMost(Insert(x, t), m) == AtMost(t + [x], m)
    ensures AtLeast(Insert(x, t), m) == AtLeast(t + [x], m)
  {
    hide Place, AtMost, AtLeast;
    var front, back := t[..Place(x, t)], t[Place(x, t)..];
    assert t == front + back;
    CountsAppend(front, back, m);
    CountsAppend(front + [x], back, m);
    CountsAppend(front, [x], m);
    CountsAppend(t, [x], m);
  }

  lemma {:induction false} CountsSurviveSorting(v: seq<real>, m: real)
    ensures AtMost(SortedOf(v), m) == AtMost(v, m)
    ensures AtLeast(SortedOf(v), m) == AtLeast(v, m)
  {
    hide AtMost, AtLeast, Insert;
    if v != [] {
      var front, x := v[..|v| - 1], v[|v| - 1];
      CountsSurviveSorting(front, m);
      InsertCounts(x, SortedOf(front), m);
      CountsAppend(SortedOf(front), [x], m);
      CountsAppend(front, [x], m);
      assert v == front + [x];
    }
  }

  lemma {:induction false} AllCounted(s: seq<real>, m: real)
    ensures (forall i | 0 <= i < |s| :: s[i] <= m) ==> AtMost(s, m) == |s|
    ensures (forall i | 0 <= i < |s| :: s[i] >= m) ==> AtLeast(s, m) == |s|
  {
    if s != [] {
      AllCounted(s[..|s| - 1], m);
    }
  }

  lemma ShareBelow(s: seq<real>, m: real, f: nat)
    requires Sorted(s) && f < |s| && s[f] <= m
    ensures AtMost(s, m) >= f + 1
  {
    hide AtMost, AtLeast;
    var front := s[..f + 1];
    assert forall i | 0 <= i < |front| :: front[i] <= s[f];
    assert s == front + s[f + 1..];
    hide Sorted;
    CountsAppend(front, s[f + 1..], m);
    AllCounted(front, m);
  }

  lemma ShareAbove(s: seq<real>, m: real, c: nat)
    requires Sorted(s) && c < |s| && s[c] >= m
    ensures AtLeast(s, m) >= |s| - c
  {
    hide AtMost, AtLeast;
    var back := s[c..];
    assert forall i | 0 <= i < |back| :: back[i] >= s[c];
    assert s == s[..c] + back;
    hide Sorted;
    CountsAppend(s[..c], back, m);
    AllCounted(back, m);
  }

  /**
   * Strictly more than the asked share of n - 1 values are on each side of the percentile,
   * itself included; of ten values and 0.99 that makes nine, not the 9.9 of a share of n.
   */
  lemma SharesOfQuantile(v: seq<real>, percent: real)
    requires InRange(v, percent)
    ensures AtMost(v, Quantile(v, percent)) as real > percent * (|v| - 1) as real
    ensures AtLeast(v, Quantile(v, percent)) as real > (1.0 - percent) * (|v| - 1) as real
  {
    var s, m, pivot := SortedOf(v), Quantile(v, percent), Pivot(|v|, percent);
    assert pivot == percent * (|v| - 1) as real;
    assert (1.0 - percent) * (|v| - 1) as real == (|v| - 1) as real - pivot;
    InBoundsIff(|v|, percent);
    SortedOfIsSorted(v);
    CountsSurviveSorting(v, m);
    AtIsBetween(s, pivot);
    CeilIsNext(pivot);
    hide SortedOf, At, Pivot, Quantile, Sorted, AtMost, AtLeast;
    ShareBelow(s, m, pivot.Floor);
    ShareAbove(s, m, Ceil(pivot));
  }

  lemma Half(a: nat, n: nat)
    requires n > 0 && a as real > 0.5 * (n - 1) as real
    ensures 2 * a >= n
  {
    assert (2 * a) as real == 2.0 * a as real;
  }

  /** At least half of the values are at most the median, and at least half are no less than it. */
  lemma MedianIsInTheMiddle(v: seq<real>)
    requires v != []
    ensures 2 * AtMost(v, Quantile(v, 0.5)) >= |v|
    ensures 2 * AtLeast(v, Quantile(v, 0.5)) >= |v|
  {
    hide Quantile, AtMost, AtLeast;
    SharesOfQuantile(v, 0.5);
    Half(AtMost(v, Quantile(v, 0.5)), |v|);
    Half(AtLeast(v, Quantile(v, 0.5)), |v|);
  }
}
