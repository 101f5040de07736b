/** The running median of the Bodnar interface's axes (libleo.c): an in-place quicksort of the last ten raw
values gives the threshold a new value has to leave. */
module Median {

  const MAX_HIST := 10
  const INITVAL := -1

  // ---------- permutations of a part ----------

  /** The same elements, moved between low and high at most. */
  predicate Permuted(s: seq<int>, t: seq<int>, low: int, high: int) {
    && |s| == |t| && 0 <= low <= high + 1 <= |s|
    && multiset(s) == multiset(t)
    && s[..low] == t[..low] && s[high + 1..] == t[high + 1..]
  }

  lemma SamePart(s: seq<int>, t: seq<int>, low: int, high: int)
    requires Permuted(s, t, low, high)
    ensures multiset(s[low..high + 1]) == multiset(t[low..high + 1])
  {
    var a, b, c, d := s[..low], s[low..high + 1], s[high + 1..], t[low..high + 1];
    assert s == a + b + c && t == a + d + c;
    assert multiset(b) == multiset(s) - multiset(a) - multiset(c);
    assert multiset(d) == multiset(t) - multiset(a) - multiset(c);
  }

  /** What moves in a part stays within its bounds. */
  lemma BoundsStay(s: seq<int>, t: seq<int>, low: int, high: int, v: int, k: int)
    requires Permuted(s, t, low, high) && low <= k <= high
    ensures (forall j :: low <= j <= high ==> s[j] <= v) ==> t[k] <= v
    ensures (forall j :: low <= j <= high ==> s[j] > v) ==> t[k] > v
  {
    SamePart(s, t, low, high);
    var a, b := s[low..high + 1], t[low..high + 1];
    assert t[k] == b[k - low] && b[k - low] in multiset(b);
    assert t[k] in multiset(a);
    var j :| 0 <= j < |a| && a[j] == t[k];
    assert s[low + j] == a[j];
  }

  lemma PartOfPart(s: seq<int>, t: seq<int>, u: seq<int>, low: int, high: int, l: int, h: int)
    requires Permuted(s, t, low, high) && Permuted(t, u, l, h) && low <= l && h <= high
    ensures Permuted(s, u, low, high)
  {
    assert t[..low] == t[..l][..low] && u[..low] == u[..l][..low];
    assert t[high + 1..] == t[h + 1..][high - h..] && u[high + 1..] == u[h + 1..][high - h..];
  }

  predicate Ordered(s: seq<int>, low: int, high: int)
    requires 0 <= low <= high + 1 <= |s|
  {
    forall a, b :: low <= a < b <= high ==> s[a] <= s[b]
  }

  predicate Split(s: seq<int>, low: int, high: int, pi: int) {
    && 0 <= low <= pi <= high < |s|
    && (forall k :: low <= k <= pi ==> s[k] <= s[pi])
    && (forall k :: pi < k <= high ==> s[k] > s[pi])
  }

  /** Sorting the part below the pivot keeps the split. */
  lemma SplitStaysBelow(s: seq<int>, t: seq<int>, low: int, high: int, pi: int)
    requires Split(s, low, high, pi) && Permuted(s, t, low, pi - 1)
    ensures Split(t, low, high, pi) && t[pi] == s[pi]
  {
    assert forall k :: pi <= k < |s| ==> s[k] == s[pi..][k - pi] && t[k] == t[pi..][k - pi];
    forall k | low <= k < pi
      ensures t[k] <= s[pi]
    {
      BoundsStay(s, t, low, pi - 1, s[pi], k);
    }
  }

  lemma SplitStaysAbove(s: seq<int>, t: seq<int>, low: int, high: int, pi: int)
    requires Split(s, low, high, pi) && Permuted(s, t, pi + 1, high)
    ensures Split(t, low, high, pi) && forall k :: low <= k <= pi ==> t[k] == s[k]
  {
    assert forall k :: 0 <= k <= pi ==> s[k] == s[..pi + 1][k] && t[k] == t[..pi + 1][k];
    forall k | pi < k <= high
      ensures t[k] > s[pi]
    {
      BoundsStay(s, t, pi + 1, high, s[pi], k);
    }
  }

  lemma SplitIsOrdered(s: seq<int>, low: int, high: int, pi: int)
    requires Split(s, low, high, pi) && Ordered(s, low, pi - 1) && Ordered(s, pi + 1, high)
    ensures Ordered(s, low, high)
  {
  }

  // ---------- quicksort ----------

  method Swap(arr: array<int>, a: nat, b: nat)
    requires a <= b < arr.Length
    modifies arr
    ensures arr[a] == old(arr[b]) && arr[b] == old(arr[a])
    ensures forall k :: 0 <= k < arr.Length && k != a && k != b ==> arr[k] == old(arr[k])
    ensures Permuted(old(arr[..]), arr[..], a, b)
  {
    var temp := arr[a];
    arr[a] := arr[b];
    arr[b] := temp;
  }

  method Partition(arr: array<int>, low: nat, high: nat) returns (pi: nat)
    requires low < high < arr.Length
    modifies arr
    ensures Permuted(old(arr[..]), arr[..], low, high) && Split(arr[..], low, high, pi)
  {
    ghost var s := arr[..];
    var p := arr[low];
    var i, j := low, high;
    while i < j
      invariant low <= i <= high && low <= j <= high && Permuted(s, arr[..], low, high) && arr[low] == p
      invariant forall k :: low <= k < i ==> arr[k] <= p
      invariant forall k :: j < k <= high ==> arr[k] > p
      invariant if i < j then arr[i] <= p else arr[j] <= p
      decreases high - i
    {
      while arr[i] <= p && i <= high - 1
        invariant i <= high && forall k :: low <= k < i ==> arr[k] <= p
        decreases high - i
      {
        i := i + 1;
      }
      while arr[j] > p && j >= low + 1
        invariant low <= j <= high && forall k :: j < k <= high ==> arr[k] > p
        decreases j
      {
        j := j - 1;
      }
      if i < j {
        ghost var t := arr[..];
        Swap(arr, i, j);
        PartOfPart(s, t, arr[..], low, high, i, j);
      }
    }
    ghost var t := arr[..];
    Swap(arr, low, j);
    PartOfPart(s, t, arr[..], low, high, low, j);
    pi := j;
  }

  method Quicksort(arr: array<int>, low: int, high: int)
    requires 0 <= low <= high + 1 <= arr.Length
    modifies arr
    ensures Permuted(old(arr[..]), arr[..], low, high) && Ordered(arr[..], low, high)
    decreases high - low + 1
  {
    if low < high {
      ghost var s := arr[..];
      var pi: int := Partition(arr, low, high);
      ghost var t := arr[..];
      Quicksort(arr, low, pi - 1);
      ghost var u := arr[..];
      SplitStaysBelow(t, u, low, high, pi);
      PartOfPart(s, t, u, low, high, low, pi - 1);
      Quicksort(arr, pi + 1, high);
      ghost var v := arr[..];
      SplitStaysAbove(u, v, low, high, pi);
      PartOfPart(s, u, v, low, high, pi + 1, high);
      SplitIsOrdered(v, low, high, pi);
    }
  }

  // ---------- the sixth smallest ----------

  /** How many elements are smaller than v. */
  function Below(s: seq<int>, v: int): nat {
    if s == [] then 0 else Below(s[..|s| - 1], v) + if s[|s| - 1] < v then 1 else 0
  }

  lemma {:induction false} BelowAppend(s: seq<int>, t: seq<int>, v: int)
    ensures Below(s + t, v) == Below(s, v) + Below(t, v)
  {
    if t == [] {
      assert s + t == s;
    } else {
      BelowAppend(s, t[..|t| - 1], v);
      assert (s + t)[..|s + t| - 1] == s + t[..|t| - 1];
    }
  }

  lemma RemoveOne(t: seq<int>, i: nat, v: int)
    requires i < |t|
    ensures var rest := t[..i] + t[i + 1..];
      && multiset(rest) == multiset(t) - multiset{t[i]}
      && Below(t, v) == Below(rest, v) + if t[i] < v then 1 else 0
  {
    var x := t[i];
    assert t == t[..i] + ([x] + t[i + 1..]);
    BelowAppend(t[..i], [x] + t[i + 1..], v);
    BelowAppend([x], t[i + 1..], v);
    BelowAppend(t[..i], t[i + 1..], v);
    BelowOne(x, v);
  }

  lemma {:induction false} SameBelow(s: seq<int>, t: seq<int>, v: int)
    requires multiset(s) == multiset(t)
    ensures Below(s, v) == Below(t, v)
  {
    if s == [] {
      assert |t| == |multiset(t)|;
    } else {
      var n := |s| - 1;
      assert s[n] in multiset(s);
      var i :| 0 <= i < |t| && t[i] == s[n];
      RemoveOne(s, n, v);
      RemoveOne(t, i, v);
      assert s[..n] + s[n + 1..] == s[..n];
      SameBelow(s[..n], t[..i] + t[i + 1..], v);
    }
  }

  lemma BelowOne(x: int, v: int)
    ensures Below([x], v) == if x < v then 1 else 0
  {
    assert [x][..0] == [];
  }

  lemma {:induction false} BelowBounds(s: seq<int>, v: int)
    ensures Below(s, v) <= |s|
    ensures (forall k :: 0 <= k < |s| ==> s[k] < v) ==> Below(s, v) == |s|
    ensures (forall k :: 0 <= k < |s| ==> s[k] >= v) ==> Below(s, v) == 0
  {
    if s != [] {
      BelowBounds(s[..|s| - 1], v);
    }
  }

  /** Elements from k on are not below v, those before it are or are not. */
  lemma BelowCut(s: seq<int>, k: nat, v: int)
    requires k <= |s|
    ensures (forall j :: k <= j < |s| ==> s[j] >= v) ==> Below(s, v) <= k
    ensures (forall j :: 0 <= j < k ==> s[j] < v) ==> Below(s, v) >= k
  {
    assert s == s[..k] + s[k..];
    BelowAppend(s[..k], s[k..], v);
    BelowBounds(s[..k], v);
    BelowBounds(s[k..], v);
  }

  /** In order, element k has at most k smaller ones and at least k + 1 that are not larger. */
  lemma RankInOrder(s: seq<int>, k: nat)
    requires k < |s| && Ordered(s, 0, |s| - 1)
    ensures Below(s, s[k]) <= k < Below(s, s[k] + 1)
  {
    BelowCut(s, k, s[k]);
    BelowCut(s, k + 1, s[k] + 1);
  }

  /** m is the sixth smallest of the history. */
  predicate SixthSmallest(hist: seq<int>, m: int) {
    Below(hist, m) <= MAX_HIST / 2 < Below(hist, m + 1)
  }

  lemma {:induction false} BelowGrows(s: seq<int>, v: int, w: int)
    requires v <= w
    ensures Below(s, v) <= Below(s, w)
  {
    if s != [] {
      BelowGrows(s[..|s| - 1], v, w);
    }
  }

  /** There is only one. */
  lemma SixthSmallestIsUnique(hist: seq<int>, m: int, n: int)
    requires SixthSmallest(hist, m) && SixthSmallest(hist, n)
    ensures m == n
  {
    if m < n {
      BelowGrows(hist, m + 1, n);
    } else if n < m {
      BelowGrows(hist, n + 1, m);
    }
  }

  // ---------- an axis ----------

  /** The history after a value, newest first. */
  function Shifted(hist: seq<int>, val: int): (r: seq<int>)
    requires |hist| == MAX_HIST
    ensures |r| == MAX_HIST
  {
    [val] + hist[..MAX_HIST - 1]
  }

  class Axis {
    const hist: array<int>
    var value: int

    ghost predicate Valid()
      reads this, hist
    {
      hist.Length == MAX_HIST
    }

    constructor ()
      ensures Valid() && value == INITVAL && fresh(hist) && hist[..] == seq(MAX_HIST, _ => INITVAL)
    {
      hist := new int[MAX_HIST](_ => INITVAL);
      value := INITVAL;
      new;
      assert hist[..] == seq(MAX_HIST, _ => INITVAL);
    }

    /** The median of the history, found on a copy. */
    method HistoryMedian() returns (median: int)
      requires Valid()
      ensures SixthSmallest(hist[..], median)
    {
      var temparr := new int[MAX_HIST](_ => 0);
      var k := 0;
      while k < MAX_HIST
        invariant k <= MAX_HIST && temparr[..k] == hist[..k] && hist[..] == old(hist[..])
      {
        temparr[k] := hist[k];
        k := k + 1;
      }
      assert temparr[..] == hist[..];
      Quicksort(temparr, 0, MAX_HIST - 1);
      median := temparr[MAX_HIST / 2];
      ghost var sorted := temparr[..];
      RankInOrder(sorted, MAX_HIST / 2);
      SameBelow(sorted, hist[..], median);
      SameBelow(sorted, hist[..], median + 1);
    }

    /** One raw value of a report. */
    method Receive(val: int, noise: nat)
      requires Valid()
      modifies this, hist
      ensures Valid() && hist[..] == Shifted(old(hist[..]), val)
      ensures forall m :: SixthSmallest(old(hist[..]), m) && m != INITVAL && val != INITVAL ==>
        value == if m - noise <= val <= m + noise then old(value) else val
      ensures val == INITVAL || SixthSmallest(old(hist[..]), INITVAL) ==> value == val
      ensures value == NextValue(old(value), old(hist[..]), val, noise)
    {
      ghost var before := hist[..];
      NextValueByRank(value, before, val, noise);
      var median := HistoryMedian();
      MedianIsSixth(before, median);
      if val != INITVAL && median != INITVAL {
        if val < median - noise || val > median + noise {
          value := val;
        }
      } else {
        value := val;
      }
      var h := MAX_HIST - 2;
      while h >= 0
        invariant -1 <= h <= MAX_HIST - 2
        invariant forall k :: 0 <= k <= h + 1 ==> hist[k] == before[k]
        invariant forall k :: h + 1 < k < MAX_HIST ==> hist[k] == before[k - 1]
        invariant value == NextValue(old(value), before, val, noise)
      {
        hist[h + 1] := hist[h];
        h := h - 1;
      }
      hist[0] := val;
      assert hist[..] == Shifted(before, val);
    }
  }

  /** The sixth smallest as a function. */
  function Sixth(hist: seq<int>): int
    requires |hist| == MAX_HIST
  {
    SixthFrom(hist, hist)
  }

  /** The first of the candidates that is the sixth smallest. */
  function SixthFrom(hist: seq<int>, cands: seq<int>): int {
    if cands == [] then 0 else if SixthSmallest(hist, cands[0]) then cands[0] else SixthFrom(hist, cands[1..])
  }

  lemma {:induction false} SixthFromFinds(hist: seq<int>, cands: seq<int>, m: int)
    requires SixthSmallest(hist, m) && m in cands
    ensures SixthFrom(hist, cands) == m
  {
    if SixthSmallest(hist, cands[0]) {
      SixthSmallestIsUnique(hist, cands[0], m);
    } else {
      SixthFromFinds(hist, cands[1..], m);
    }
  }

  lemma {:induction false} BelowSteps(s: seq<int>, m: int)
    requires Below(s, m) < Below(s, m + 1)
    ensures m in s
  {
    if s != [] && s[|s| - 1] != m {
      BelowSteps(s[..|s| - 1], m);
    }
  }

  lemma MedianIsSixth(hist: seq<int>, m: int)
    requires |hist| == MAX_HIST && SixthSmallest(hist, m)
    ensures Sixth(hist) == m
  {
    BelowSteps(hist, m);
    SixthFromFinds(hist, hist, m);
  }

  /** The axis after a value: once initialised it moves only on a value more than noise away from the
      median. */
  function NextValue(value: int, hist: seq<int>, val: int, noise: nat): int
    requires |hist| == MAX_HIST
  {
    var m := Sixth(hist);
    if val == INITVAL || m == INITVAL || val < m - noise || val > m + noise then val else value
  }

  /** In terms of the rank alone: within noise of the sixth smallest an axis keeps its value. */
  lemma NextValueByRank(value: int, hist: seq<int>, val: int, noise: nat)
    requires |hist| == MAX_HIST
    ensures forall m :: SixthSmallest(hist, m) && m != INITVAL && val != INITVAL ==>
      NextValue(value, hist, val, noise) == if m - noise <= val <= m + noise then value else val
    ensures val == INITVAL || SixthSmallest(hist, INITVAL) ==> NextValue(value, hist, val, noise) == val
  {
    forall m | SixthSmallest(hist, m)
      ensures Sixth(hist) == m
    {
      MedianIsSixth(hist, m);
    }
  }

  // ---------- whole runs ----------

  function History(hist: seq<int>, vals: seq<int>): (r: seq<int>)
    requires |hist| == MAX_HIST
    ensures |r| == MAX_HIST
    decreases |vals|
  {
    if vals == [] then hist else History(Shifted(hist, vals[0]), vals[1..])
  }

  /** After any run the history is the last ten raw values, newest first, older ones from before. */
  lemma {:induction false} LastTen(hist: seq<int>, vals: seq<int>, k: nat)
    requires |hist| == MAX_HIST && k < MAX_HIST
    ensures History(hist, vals)[k] == if k < |vals| then vals[|vals| - 1 - k] else hist[k - |vals|]
    decreases |vals|
  {
    if vals != [] {
      LastTen(Shifted(hist, vals[0]), vals[1..], k);
    }
  }

  lemma MixedHistory(hist: seq<int>, n: nat)
    requires |hist| == MAX_HIST && n <= MAX_HIST
    requires (forall k :: 0 <= k < n ==> hist[k] >= 0) && forall k :: n <= k < MAX_HIST ==> hist[k] == INITVAL
    ensures SixthSmallest(hist, INITVAL) <==> n < 5
  {
    NotBelow(hist, INITVAL);
    var a, b := hist[..n], hist[n..];
    assert hist == a + b;
    BelowAppend(a, b, 0);
    NotBelow(a, 0);
    BelowBounds(b, 0);
  }

  lemma NotBelow(s: seq<int>, v: int)
    requires forall k :: 0 <= k < |s| ==> s[k] >= v
    ensures Below(s, v) == 0
  {
    BelowBounds(s, v);
  }

  /** As long as fewer than five values have come, the median is still the initial value; after that it
      never is again. */
  lemma InitialisedAfterFive(vals: seq<int>)
    requires forall k :: 0 <= k < |vals| ==> vals[k] >= 0
    ensures SixthSmallest(History(seq(MAX_HIST, _ => INITVAL), vals), INITVAL) <==> |vals| < 5
  {
    var hist := History(seq(MAX_HIST, _ => INITVAL), vals);
    forall k: nat | k < MAX_HIST
      ensures hist[k] == if k < |vals| then vals[|vals| - 1 - k] else INITVAL
    {
      LastTen(seq(MAX_HIST, _ => INITVAL), vals, k);
    }
    MixedHistory(hist, if |vals| < MAX_HIST then |vals| else MAX_HIST);
  }

  // ---------- flicker ----------

  /** The axis after a run of values. */
  function ValueAfter(value: int, hist: seq<int>, vals: seq<int>, noise: nat): int
    requires |hist| == MAX_HIST
    decreases |vals|
  {
    if vals == [] then value
    else ValueAfter(NextValue(value, hist, vals[0], noise), Shifted(hist, vals[0]), vals[1..], noise)
  }

  lemma MedianIsBetween(hist: seq<int>, m: int, lo: int, hi: int)
    requires |hist| == MAX_HIST && SixthSmallest(hist, m) && forall k :: 0 <= k < MAX_HIST ==> lo <= hist[k] <= hi
    ensures lo <= m <= hi
  {
    BelowBounds(hist, m);
    BelowBounds(hist, m + 1);
  }

  lemma {:induction false} SomeMedian(hist: seq<int>, lo: int, hi: int) returns (m: int)
    requires |hist| == MAX_HIST && lo <= hi && forall k :: 0 <= k < MAX_HIST ==> lo <= hist[k] <= hi
    ensures SixthSmallest(hist, m)
  {
    BelowBounds(hist, lo);
    BelowBounds(hist, hi + 1);
    m := lo;
    while Below(hist, m + 1) <= MAX_HIST / 2
      invariant lo <= m <= hi && Below(hist, m) <= MAX_HIST / 2
      decreases hi - m
    {
      m := m + 1;
    }
  }

  lemma WithinNoise(value: int, hist: seq<int>, val: int, noise: nat, lo: nat)
    requires |hist| == MAX_HIST && lo <= val <= lo + noise && forall k :: 0 <= k < MAX_HIST ==> lo <= hist[k] <= lo + noise
    ensures NextValue(value, hist, val, noise) == value
  {
    var m := SomeMedian(hist, lo, lo + noise);
    MedianIsBetween(hist, m, lo, lo + noise);
    NextValueByRank(value, hist, val, noise);
  }

  /** As long as the history and all new values lie within noise of each other, the axis does not move. */
  lemma {:induction false} FlickerStaysPut(value: int, hist: seq<int>, vals: seq<int>, noise: nat, lo: nat)
    requires |hist| == MAX_HIST && forall k :: 0 <= k < MAX_HIST ==> lo <= hist[k] <= lo + noise
    requires forall k :: 0 <= k < |vals| ==> lo <= vals[k] <= lo + noise
    ensures ValueAfter(value, hist, vals, noise) == value
    decreases |vals|
  {
    if vals != [] {
      WithinNoise(value, hist, vals[0], noise, lo);
      FlickerStaysPut(value, Shifted(hist, vals[0]), vals[1..], noise, lo);
    }
  }

  function Same(x: int, n: nat): (r: seq<int>)
    ensures |r| == n && forall k :: 0 <= k < n ==> r[k] == x
  {
    seq(n, _ => x)
  }

  /** The history of an axis at rest. */
  function Rest(c: int): (hist: seq<int>)
    ensures |hist| == MAX_HIST
  {
    Same(c, MAX_HIST)
  }

  /** n values x before those of c. */
  predicate Mixed(hist: seq<int>, n: nat, x: int, c: int) {
    |hist| == MAX_HIST && n <= MAX_HIST && hist[..n] == Same(x, n) && hist[n..] == Same(c, MAX_HIST - n)
  }

  lemma RepeatedHistory(c: int, x: int, n: nat)
    requires n <= MAX_HIST
    ensures Mixed(History(Rest(c), Same(x, n)), n, x, c)
  {
    var hist := History(Rest(c), Same(x, n));
    forall k: nat | k < MAX_HIST
      ensures hist[k] == if k < n then x else c
    {
      LastTen(Rest(c), Same(x, n), k);
    }
  }

  lemma BelowSame(x: int, n: nat, v: int)
    ensures Below(Same(x, n), v) == if x < v then n else 0
  {
    BelowBounds(Same(x, n), v);
  }

  lemma BelowMixed(hist: seq<int>, n: nat, x: int, c: int, v: int)
    requires Mixed(hist, n, x, c)
    ensures Below(hist, v) == (if x < v then n else 0) + if c < v then MAX_HIST - n else 0
  {
    assert hist == hist[..n] + hist[n..];
    BelowAppend(hist[..n], hist[n..], v);
    BelowSame(x, n, v);
    BelowSame(c, MAX_HIST - n, v);
  }

  /** Of n values x before ten of c, the sixth smallest is x from six on, and from five on if x is the larger. */
  lemma RepeatedMedian(c: int, x: int, n: nat)
    requires n <= MAX_HIST && x != c && (if x > c then n >= 5 else n >= 6)
    ensures SixthSmallest(History(Rest(c), Same(x, n)), x)
  {
    var hist := History(Rest(c), Same(x, n));
    RepeatedHistory(c, x, n);
    BelowMixed(hist, n, x, c, x);
    BelowMixed(hist, n, x, c, x + 1);
  }

  lemma {:induction false} LastValue(value: int, hist: seq<int>, vals: seq<int>, last: int, noise: nat)
    requires |hist| == MAX_HIST
    ensures ValueAfter(value, hist, vals + [last], noise)
         == NextValue(ValueAfter(value, hist, vals, noise), History(hist, vals), last, noise)
    decreases |vals|
  {
    if vals == [] {
      assert [last][1..] == [] && vals + [last] == [last];
    } else {
      assert (vals + [last])[0] == vals[0] && (vals + [last])[1..] == vals[1..] + [last];
      LastValue(NextValue(value, hist, vals[0], noise), Shifted(hist, vals[0]), vals[1..], last, noise);
    }
  }

  /** Six values on one side of c and then one on the other, farther than noise apart: the axis follows. */
  lemma SwingMoves(value: int, c: int, x: nat, y: nat, noise: nat)
    requires x != c && (y - x > noise || x - y > noise)
    ensures ValueAfter(value, Rest(c), Same(x, 6) + [y], noise) == y
  {
    LastValue(value, Rest(c), Same(x, 6), y, noise);
    RepeatedMedian(c, x, 6);
    NextValueByRank(ValueAfter(value, Rest(c), Same(x, 6), noise), History(Rest(c), Same(x, 6)), y, noise);
  }

  predicate Around(c: int, r: nat, vals: seq<int>) {
    forall k :: 0 <= k < |vals| ==> c - r <= vals[k] <= c + r
  }

  /** An axis at rest at c never moves, whatever values within r of c come, if and only if noise is at least twice
      r: the values themselves move the threshold. */
  lemma FlickerIsSafeIff(value: int, c: nat, r: nat, noise: nat)
    requires r <= c
    ensures (forall vals: seq<int> :: Around(c, r, vals) ==> ValueAfter(value, Rest(c), vals, noise) == value) <==> 2 * r <= noise
  {
    if 2 * r <= noise {
      forall vals: seq<int> | Around(c, r, vals)
        ensures ValueAfter(value, Rest(c), vals, noise) == value
      {
        FlickerStaysPut(value, Rest(c), vals, noise, c - r);
      }
    } else {
      var up, down := Same(c + r, 6) + [c - r], Same(c - r, 6) + [c + r];
      SwingMoves(value, c, c + r, c - r, noise);
      SwingMoves(value, c, c - r, c + r, noise);
      assert Around(c, r, up) && Around(c, r, down);
    }
  }
}
