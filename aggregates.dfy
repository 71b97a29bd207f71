/** The one-line reducers the metrics apply to per-file lists and per-author
    dictionaries: Python's `sum`, `max`, `min`, `statistics.mean` followed by
    `round`, `statistics.median`, and `sum(d.values())` / `max(d.values())`,
    all over exact integers (and exact rationals where Python produces a float). */
module Aggregates {

  // ---------------------------------------------------------------------------
  // Lists
  // ---------------------------------------------------------------------------

  /** `sum(xs)`, folded from the left as Python does. */
  function Sum(xs: seq<int>): int
    decreases |xs|
  {
    if xs == [] then 0 else Sum(xs[..|xs| - 1]) + xs[|xs| - 1]
  }

  /** `m` is an entry of `xs` and no entry exceeds it. */
  predicate IsMax(xs: seq<int>, m: int) {
    m in xs && forall i :: 0 <= i < |xs| ==> xs[i] <= m
  }

  /** `max(xs)` of a non-empty list. */
  function Max(xs: seq<int>): (m: int)
    requires |xs| > 0
    ensures IsMax(xs, m)
    decreases |xs|
  {
    if |xs| == 1 then xs[0]
    else
      var m := Max(xs[..|xs| - 1]);
      assert forall i :: 0 <= i < |xs| - 1 ==> xs[..|xs| - 1][i] == xs[i];
      if xs[|xs| - 1] > m then xs[|xs| - 1] else m
  }

  /** `min(xs)` of a non-empty list. */
  function Min(xs: seq<int>): (m: int)
    requires |xs| > 0
    ensures m in xs
    ensures forall i :: 0 <= i < |xs| ==> m <= xs[i]
    decreases |xs|
  {
    if |xs| == 1 then xs[0]
    else
      var m := Min(xs[..|xs| - 1]);
      assert forall i :: 0 <= i < |xs| - 1 ==> xs[..|xs| - 1][i] == xs[i];
      if xs[|xs| - 1] < m then xs[|xs| - 1] else m
  }

  predicate NonNegative(xs: seq<int>) {
    forall i :: 0 <= i < |xs| ==> xs[i] >= 0
  }

  lemma {:induction false} SumAppend(a: seq<int>, b: seq<int>)
    ensures Sum(a + b) == Sum(a) + Sum(b)
    decreases |b|
  {
    if b == [] {
      assert a + b == a;
    } else {
      var b' := b[..|b| - 1];
      assert (a + b)[..|a + b| - 1] == a + b';
      SumAppend(a, b');
    }
  }

  /** A list's total lies between `len * min` and `len * max`. */
  lemma {:induction false} SumBounds(xs: seq<int>)
    requires |xs| > 0
    ensures |xs| * Min(xs) <= Sum(xs) <= |xs| * Max(xs)
    decreases |xs|
  {
    if |xs| > 1 {
      var init, last := xs[..|xs| - 1], xs[|xs| - 1];
      var n, lo, hi := |init|, Min(xs), Max(xs);
      SumBounds(init);
      assert lo <= Min(init) && Max(init) <= hi by {
        var i :| 0 <= i < |init| && init[i] == Min(init);
        assert xs[i] == init[i];
        var j :| 0 <= j < |init| && init[j] == Max(init);
        assert xs[j] == init[j];
      }
      MulMonotone(n, lo, Min(init));
      MulMonotone(n, Max(init), hi);
      assert Sum(xs) == Sum(init) + last;
      assert lo <= last <= hi;
      MulSucc(n, lo);
      MulSucc(n, hi);
    }
  }

  lemma MulSucc(n: int, a: int)
    ensures (n + 1) * a == n * a + a
  {
  }

  lemma MulMonotone(n: nat, a: int, b: int)
    requires a <= b
    ensures n * a <= n * b
  {
    assert n * b - n * a == n * (b - a);
  }

  /** Over non-negative entries, the largest entry never exceeds the total. */
  lemma {:induction false} MaxAtMostSum(xs: seq<int>)
    requires |xs| > 0 && NonNegative(xs)
    ensures 0 <= Max(xs) <= Sum(xs)
    decreases |xs|
  {
    if |xs| > 1 {
      var init := xs[..|xs| - 1];
      assert NonNegative(init) by {
        forall i | 0 <= i < |init| ensures init[i] >= 0 { assert init[i] == xs[i]; }
      }
      MaxAtMostSum(init);
    }
  }

  // ---------------------------------------------------------------------------
  // round(statistics.mean(xs)) and statistics.median(xs)
  // ---------------------------------------------------------------------------

  /** Python's `round` of the exact quotient `num / den`: the nearest integer,
      ties going to the even neighbour (banker's rounding). */
  function RoundHalfEven(num: int, den: int): (r: int)
    requires den > 0
    ensures 2 * (num - r * den) <= den && 2 * (r * den - num) <= den
    ensures 2 * (num - r * den) == den || 2 * (r * den - num) == den ==> r % 2 == 0
  {
    var q := num / den;
    var rem := num % den;
    assert num - q * den == rem && 0 <= rem < den;
    assert (q + 1) * den == q * den + den;
    if 2 * rem < den then q
    else if 2 * rem > den then q + 1
    else if q % 2 == 0 then q
    else q + 1
  }

  /** `round(mean(xs))`: the integer nearest the exact mean, the even one
      on a tie. */
  function RoundedMean(xs: seq<int>): (r: int)
    requires |xs| > 0
    ensures 2 * (Sum(xs) - r * |xs|) <= |xs| && 2 * (r * |xs| - Sum(xs)) <= |xs|
    ensures 2 * (Sum(xs) - r * |xs|) == |xs| || 2 * (r * |xs| - Sum(xs)) == |xs| ==> r % 2 == 0
  {
    RoundHalfEven(Sum(xs), |xs|)
  }

  /** The rounded mean lies between the smallest and the largest entry. */
  lemma RoundedMeanBetween(xs: seq<int>)
    requires |xs| > 0
    ensures Min(xs) <= RoundedMean(xs) <= Max(xs)
  {
    SumBounds(xs);
    RoundedBetween(|xs|, Sum(xs), RoundedMean(xs), Min(xs), Max(xs));
  }

  /** An integer within half a step of `s / n` lies between any integer
      bounds of `s / n`. */
  lemma RoundedBetween(n: int, s: int, r: int, lo: int, hi: int)
    requires n > 0 && n * lo <= s <= n * hi
    requires 2 * (s - r * n) <= n && 2 * (r * n - s) <= n
    ensures lo <= r <= hi
  {
    Expand(n, r, lo);
    Expand(n, hi, r);
    PositiveFactor(n, 2 * r - 2 * lo + 1);
    PositiveFactor(n, 2 * hi - 2 * r + 1);
  }

  lemma Expand(n: int, a: int, b: int)
    ensures n * (2 * a - 2 * b + 1) == 2 * (a * n) - 2 * (n * b) + n
  {
  }

  lemma PositiveFactor(n: int, k: int)
    requires n > 0 && n * k >= 0
    ensures k >= 0
  {
  }

  predicate Sorted(s: seq<int>) {
    forall i, j :: 0 <= i < j < |s| ==> s[i] <= s[j]
  }

  /** Inserts `x` into a sorted list. */
  function Insert(x: int, s: seq<int>): (r: seq<int>)
    requires Sorted(s)
    ensures Sorted(r) && multiset(r) == multiset(s) + multiset{x}
    ensures |r| > 0 && r[0] == if s == [] || x <= s[0] then x else s[0]
  {
    if s == [] then [x]
    else if x <= s[0] then [x] + s
    else
      var rest := Insert(x, s[1..]);
      assert s == [s[0]] + s[1..];
      assert s[0] <= rest[0];
      [s[0]] + rest
  }

  /** `sorted(xs)`. */
  function Sort(xs: seq<int>): (r: seq<int>)
    ensures Sorted(r) && multiset(r) == multiset(xs) && |r| == |xs|
  {
    if xs == [] then []
    else
      assert xs == [xs[0]] + xs[1..];
      var r := Insert(xs[0], Sort(xs[1..]));
      assert |r| == |multiset(r)|;
      r
  }

  /** `statistics.median(xs)`: the middle entry of the sorted list, or the
      exact mean of the two middle entries when the length is even. */
  function Median(xs: seq<int>): (r: real)
    requires |xs| > 0
    // of an odd number of entries, the median is one of them
    ensures |xs| % 2 == 1 ==> exists x :: x in xs && r == x as real
    // of an even number, the mean of two entries at different positions
    ensures |xs| % 2 == 0 ==> exists i, j :: 0 <= i < |xs| && 0 <= j < |xs| && i != j && r == (xs[i] + xs[j]) as real / 2.0
  {
    var s := Sort(xs);
    var n := |s|;
    if n % 2 == 1 then
      assert s[n / 2] in multiset(xs);
      assert s[n / 2] in xs;
      s[n / 2] as real
    else
      TwoEntries(xs, s, n / 2 - 1, n / 2);
      (s[n / 2 - 1] + s[n / 2]) as real / 2.0
  }

  /** Dropping the entry at `i` drops one copy of it. */
  lemma DropOne(xs: seq<int>, i: int)
    requires 0 <= i < |xs|
    ensures multiset(xs[..i] + xs[i + 1..]) == multiset(xs) - multiset{xs[i]}
  {
    assert xs == xs[..i] + [xs[i]] + xs[i + 1..];
  }

  /** Two positions of a permutation of `xs` hold the values of two
      positions of `xs`. */
  lemma TwoEntries(xs: seq<int>, s: seq<int>, a: int, b: int)
    requires multiset(s) == multiset(xs)
    requires 0 <= a < b < |s|
    ensures exists i, j :: 0 <= i < |xs| && 0 <= j < |xs| && i != j && xs[i] == s[a] && xs[j] == s[b]
  {
    assert s[a] in multiset(xs);
    var i :| 0 <= i < |xs| && xs[i] == s[a];
    DropOne(s, a);
    DropOne(xs, i);
    var left, rest := s[..a] + s[a + 1..], xs[..i] + xs[i + 1..];
    assert left[b - 1] == s[b];
    assert s[b] in multiset(rest);
    var k :| 0 <= k < |rest| && rest[k] == s[b];
    var j := if k < i then k else k + 1;
    assert xs[j] == s[b];
  }

  /** The median of a list lies between its smallest and largest entry. */
  lemma MedianBetween(xs: seq<int>)
    requires |xs| > 0
    ensures Min(xs) as real <= Median(xs) <= Max(xs) as real
  {
    EntryOrMidpointBetween(xs, Median(xs));
  }

  /** An entry, or the mean of two entries, lies between the smallest and
      the largest entry. */
  lemma EntryOrMidpointBetween(xs: seq<int>, m: real)
    requires |xs| > 0
    requires |xs| % 2 == 1 ==> exists x :: x in xs && m == x as real
    requires |xs| % 2 == 0 ==> exists i, j :: 0 <= i < |xs| && 0 <= j < |xs| && i != j && m == (xs[i] + xs[j]) as real / 2.0
    ensures Min(xs) as real <= m <= Max(xs) as real
  {
    if |xs| % 2 == 1 {
      var x :| x in xs && m == x as real;
      var k :| 0 <= k < |xs| && xs[k] == x;
      assert Min(xs) <= xs[k] <= Max(xs);
    } else {
      var i, j :| 0 <= i < |xs| && 0 <= j < |xs| && i != j && m == (xs[i] + xs[j]) as real / 2.0;
      MidpointBetween(xs[i], xs[j], Min(xs), Max(xs));
    }
  }

  /** The mean of two values within bounds is within them. */
  lemma MidpointBetween(a: int, b: int, lo: int, hi: int)
    requires lo <= a <= hi && lo <= b <= hi
    ensures lo as real <= (a + b) as real / 2.0 <= hi as real
  {
  }

  /** `statistics.median` takes the middle of the sorted list: any sorted
      arrangement of the entries has the median as its middle entry, or as
      the mean of its two middle entries. */
  lemma MedianIsMiddle(xs: seq<int>, s: seq<int>)
    requires |xs| > 0 && Sorted(s) && multiset(s) == multiset(xs)
    ensures |s| == |xs|
    ensures |xs| % 2 == 1 ==> Median(xs) == s[|xs| / 2] as real
    ensures |xs| % 2 == 0 ==> Median(xs) == (s[|xs| / 2 - 1] + s[|xs| / 2]) as real / 2.0
  {
    assert |s| == |multiset(s)| == |multiset(xs)| == |xs|;
    SortedUnique(s, Sort(xs));
  }

  /** A multiset has one sorted arrangement. */
  lemma {:induction false} SortedUnique(a: seq<int>, b: seq<int>)
    requires Sorted(a) && Sorted(b) && multiset(a) == multiset(b)
    ensures a == b
  {
    if a == [] {
      assert |b| == |multiset(b)| == 0;
    } else {
      SameHead(a, b);
      SortedTail(a);
      SortedTail(b);
      assert a == [a[0]] + a[1..] && b == [b[0]] + b[1..];
      SortedUnique(a[1..], b[1..]);
    }
  }

  /** Two sorted arrangements of one multiset start alike, and the rest
      of each arranges the rest. */
  lemma SameHead(a: seq<int>, b: seq<int>)
    requires Sorted(a) && Sorted(b) && multiset(a) == multiset(b) && a != []
    ensures b != [] && a[0] == b[0]
    ensures multiset(a[1..]) == multiset(b[1..])
  {
    assert a[0] in multiset(b);
    var j :| 0 <= j < |b| && b[j] == a[0];
    assert b[0] in multiset(a);
    var i :| 0 <= i < |a| && a[i] == b[0];
    assert b[0] <= b[j] && a[0] <= a[i];
    DropOne(a, 0);
    DropOne(b, 0);
    assert a[..0] + a[1..] == a[1..] && b[..0] + b[1..] == b[1..];
  }

  lemma SortedTail(a: seq<int>)
    requires Sorted(a) && a != []
    ensures Sorted(a[1..])
  {
    forall i, j | 0 <= i < j < |a| - 1
      ensures a[1..][i] <= a[1..][j]
    {
      assert a[1..][i] == a[i + 1] && a[1..][j] == a[j + 1];
    }
  }

  /** A one-entry list is its own median. */
  lemma MedianOfOne(x: int)
    ensures Median([x]) == x as real
  {
    var s := Sort([x]);
    assert multiset(s) == multiset{x};
    assert s[0] in multiset(s);
  }

  // ---------------------------------------------------------------------------
  // Dictionaries: sum(d.values()) and max(d.values())
  // ---------------------------------------------------------------------------

  /** `sum(d.values())`: independent of the order the keys are visited in
      (see MapSumRemove). */
  ghost function MapSum<K>(m: map<K, int>): int
    decreases |m|
  {
    if |m| == 0 then 0
    else
      var k :| k in m;
      assert |(m - {k}).Keys| == |m.Keys - {k}| == |m| - 1;
      m[k] + MapSum(m - {k})
  }

  /** The key MapSum takes out first. */
  lemma FirstKey<K>(m: map<K, int>) returns (j: K)
    requires |m| != 0
    ensures j in m && MapSum(m) == m[j] + MapSum(m - {j})
    ensures |m - {j}| == |m| - 1
  {
    j :| j in m && MapSum(m) == m[j] + MapSum(m - {j});
    assert |(m - {j}).Keys| == |m.Keys - {j}| == |m| - 1;
  }

  /** Any key can be taken out first. */
  lemma {:induction false} MapSumRemove<K>(m: map<K, int>, k: K)
    requires k in m
    ensures MapSum(m) == m[k] + MapSum(m - {k})
    decreases |m|
  {
    assert |m.Keys - {k}| == |m.Keys| - 1;
    var j := FirstKey(m);
    if j != k {
      assert |(m - {j}).Keys| == |m.Keys - {j}| == |m| - 1;
      MapSumRemove(m - {j}, k);
      assert |(m - {k}).Keys| == |m.Keys - {k}| == |m| - 1;
      MapSumRemove(m - {k}, j);
      assert m - {j} - {k} == m - {k} - {j};
    }
  }

  /** Setting `d[k] = v` changes the total by `v - d.get(k, 0)`. */
  lemma MapSumUpdate<K>(m: map<K, int>, k: K, v: int)
    ensures MapSum(m[k := v]) == MapSum(m) - (if k in m then m[k] else 0) + v
  {
    MapSumRemove(m[k := v], k);
    assert m[k := v] - {k} == m - {k};
    if k in m {
      MapSumRemove(m, k);
    } else {
      assert m - {k} == m;
    }
  }

  /** `d[k] = d.get(k, 0) + n` adds `n` to the total. */
  lemma MapSumAdd<K>(m: map<K, int>, k: K, n: int)
    ensures MapSum(m[k := (if k in m then m[k] else 0) + n]) == MapSum(m) + n
  {
    MapSumUpdate(m, k, (if k in m then m[k] else 0) + n);
  }

  predicate NonNegativeValues<K>(m: map<K, int>) {
    forall k :: k in m ==> m[k] >= 0
  }

  /** Over non-negative values each value is at most the total, and the
      total is zero exactly when every value is. */
  lemma {:induction false} MapSumDominates<K>(m: map<K, int>)
    requires NonNegativeValues(m)
    ensures MapSum(m) >= 0
    ensures forall k :: k in m ==> m[k] <= MapSum(m)
    ensures MapSum(m) == 0 <==> forall k :: k in m ==> m[k] == 0
    decreases |m|
  {
    if |m| > 0 {
      var j := FirstKey(m);
      MapSumDominates(m - {j});
      forall k | k in m && k != j ensures m[k] <= MapSum(m) {
        assert k in m - {j};
      }
    }
  }

  /** A total over `n` values none above `x` is at most `n * x`. */
  lemma {:induction false} MapSumAtMostCountTimes<K>(m: map<K, int>, x: int)
    requires forall k :: k in m ==> m[k] <= x
    ensures MapSum(m) <= |m| * x
    decreases |m|
  {
    if |m| > 0 {
      var j := FirstKey(m);
      MapSumAtMostCountTimes(m - {j}, x);
      assert (|m| - 1) * x + x == |m| * x;
    }
  }

  /** `part * 100 / whole` with Python's true division, over exact
      rationals. */
  function Percent(part: int, whole: int): real
    requires whole != 0
  {
    (part * 100) as real / whole as real
  }

  lemma DivMul(a: real, t: real)
    requires t > 0.0
    ensures (a / t) * t == a
  {
  }

  /** A positive part of a whole is a fraction in (0, 1], and 1 only when
      the part is the whole. */
  lemma FractionBounds(part: int, whole: int)
    requires 0 < part <= whole
    ensures 0.0 < part as real / whole as real <= 1.0
    ensures part as real / whole as real == 1.0 <==> part == whole
  {
    DivMul(part as real, whole as real);
  }

  /** A positive part of a whole is a percentage in (0, 100], and 100 only
      when the part is the whole. */
  lemma PercentBounds(part: int, whole: int)
    requires 0 < part <= whole
    ensures 0.0 < Percent(part, whole) <= 100.0
    ensures Percent(part, whole) == 100.0 <==> part == whole
  {
    DivMul((part * 100) as real, whole as real);
  }

  /** If `n` parts that large would cover the whole, the part is at least
      `100 / n` per cent of it. */
  lemma PercentAtLeastShare(part: int, whole: int, n: int)
    requires 0 < whole && 0 < n && whole <= n * part
    ensures Percent(part, whole) >= Percent(1, n)
  {
    var q, e := Percent(part, whole), Percent(1, n);
    DivMul((part * 100) as real, whole as real);
    DivMul(100.0, n as real);
    assert q * whole as real == 100.0 * part as real;
    assert e * n as real == 100.0;
    assert q * whole as real * n as real == 100.0 * (n * part) as real;
    assert e * n as real * whole as real == 100.0 * whole as real;
  }

  /** A subset is no larger than its superset. */
  lemma {:induction false} SubsetCardinality<T>(a: set<T>, b: set<T>)
    requires a <= b
    ensures |a| <= |b|
    decreases |a|
  {
    if a != {} {
      var x :| x in a;
      SubsetCardinality(a - {x}, b - {x});
    }
  }

  /** `max(d.values())` of a non-empty dictionary, as a value. */
  ghost function MapMax<K>(m: map<K, int>): (x: int)
    requires m != map[]
    ensures x in m.Values
    ensures forall k :: k in m ==> m[k] <= x
    decreases |m|
  {
    var k :| k in m;
    var rest := m - {k};
    assert |rest.Keys| == |m.Keys - {k}| == |m| - 1;
    if rest == map[] then m[k]
    else
      var y := MapMax(rest);
      assert forall j :: j in rest ==> rest[j] == m[j];
      if m[k] >= y then m[k] else y
  }

  /** The largest value is unique: any value at least as large as all the
      others is it. */
  lemma MapMaxUnique<K>(m: map<K, int>, x: int)
    requires x in m.Values && forall k :: k in m ==> m[k] <= x
    ensures m != map[] && x == MapMax(m)
  {
    var k :| k in m && m[k] == x;
    var j :| j in m && m[j] == MapMax(m);
  }

  /** `sum(d.values())`, visiting the keys in whatever order. */
  method SumValues<K>(m: map<K, int>) returns (s: int)
    ensures s == MapSum(m)
  {
    var rest := m;
    s := 0;
    while rest != map[]
      invariant s + MapSum(rest) == MapSum(m)
      decreases |rest|
    {
      var k :| k in rest;
      MapSumRemove(rest, k);
      s := s + rest[k];
      assert |(rest - {k}).Keys| == |rest.Keys - {k}| == |rest| - 1;
      rest := rest - {k};
    }
  }

  /** `max(d.values())` of a non-empty dictionary. */
  method MaxValue<K>(m: map<K, int>) returns (x: int)
    requires m != map[]
    ensures x in m.Values
    ensures forall k :: k in m ==> m[k] <= x
    ensures x == MapMax(m)
  {
    var k0 :| k0 in m;
    x := m[k0];
    var rest := m - {k0};
    while rest != map[]
      invariant rest.Keys <= m.Keys
      invariant x in m.Values
      invariant forall k :: k in m && k !in rest ==> m[k] <= x
      invariant forall k :: k in rest ==> rest[k] == m[k]
      decreases |rest|
    {
      var k :| k in rest;
      if rest[k] > x {
        x := rest[k];
      }
      assert |(rest - {k}).Keys| == |rest.Keys - {k}| == |rest| - 1;
      rest := rest - {k};
    }
    MapMaxUnique(m, x);
  }
}
