/**
 Sorting, medians and the counting facts about medians that the filters rest on.
 Samples are reals: rounding, NaN and infinities are not part of this model.
 */
module OrderStatistics {

  ghost predicate Ascending(s: seq<real>) {
    forall i, j :: 0 <= i < j < |s| ==> s[i] <= s[j]
  }

  function Insert(x: real, s: seq<real>): (r: seq<real>)
    ensures |r| == |s| + 1
  {
    if s == [] || x <= s[0] then [x] + s else [s[0]] + Insert(x, s[1..])
  }

  function Sorted(s: seq<real>): (r: seq<real>)
    ensures |r| == |s|
  {
    if s == [] then [] else Insert(s[0], Sorted(s[1..]))
  }

  lemma {:induction false} InsertKeepsOrder(x: real, s: seq<real>)
    requires Ascending(s)
    ensures Ascending(Insert(x, s))
    ensures Insert(x, s)[0] == if s == [] || x <= s[0] then x else s[0]
  {
    if s != [] && x > s[0] {
      InsertKeepsOrder(x, s[1..]);
    }
  }

  lemma {:induction false} InsertAddsOne(x: real, s: seq<real>)
    ensures multiset(Insert(x, s)) == multiset(s) + multiset{x}
  {
    if s != [] && x > s[0] {
      InsertAddsOne(x, s[1..]);
      assert s == [s[0]] + s[1..];
    }
  }

  lemma {:induction false} FirstAndRest(s: seq<real>)
    requires s != []
    ensures multiset(s) == multiset(s[1..]) + multiset{s[0]}
  {
    assert s == [s[0]] + s[1..];
  }

  /** `Sorted` is what the library sort promises: an ascending permutation. */
  lemma {:induction false} SortedIsAscendingPermutation(s: seq<real>)
    ensures Ascending(Sorted(s))
    ensures multiset(Sorted(s)) == multiset(s)
  {
    if s == [] {
    } else {
      SortedIsAscendingPermutation(s[1..]);
      InsertKeepsOrder(s[0], Sorted(s[1..]));
      InsertAddsOne(s[0], Sorted(s[1..]));
      FirstAndRest(s);
    }
  }

  lemma {:induction false} SortedIsAscending(s: seq<real>)
    ensures Ascending(Sorted(s))
  {
    SortedIsAscendingPermutation(s);
  }

  lemma {:induction false} SortedOfAscending(s: seq<real>)
    requires Ascending(s)
    ensures Sorted(s) == s
  {
    if s == [] {
    } else {
      SortedOfAscending(s[1..]);
    }
  }

  lemma {:induction false} InsertPast(x: real, s: seq<real>, k: nat)
    requires k <= |s|
    requires forall i :: 0 <= i < k ==> s[i] < x
    requires k == |s| || x <= s[k]
    ensures Insert(x, s) == s[..k] + [x] + s[k..]
  {
    if k == 0 {
    } else {
      InsertPast(x, s[1..], k - 1);
      assert s[..k] == [s[0]] + s[1..][..k - 1];
      assert s[k..] == s[1..][k - 1..];
    }
  }

  /** Moves a[i] right, past the smaller samples that follow it. */
  method InsertInPlace(a: array<real>, i: nat)
    requires i < a.Length
    modifies a
    ensures a[..i] == old(a[..i])
    ensures a[i..] == Insert(old(a[i]), old(a[i + 1..]))
  {
    ghost var tail := a[i + 1..];
    var x, j := a[i], i;
    while j + 1 < a.Length && a[j + 1] < x
      invariant i <= j < a.Length
      invariant forall k :: 0 <= k < i ==> a[k] == old(a[k])
      invariant forall k :: i <= k < j ==> a[k] == tail[k - i]
      invariant forall k :: 0 <= k < j - i ==> tail[k] < x
      invariant forall k :: j < k < a.Length ==> a[k] == tail[k - i - 1]
    {
      a[j] := a[j + 1];
      j := j + 1;
    }
    a[j] := x;
    InsertPast(x, tail, j - i);
    ShiftedPast(a[i..], tail, x, j - i);
  }

  lemma {:induction false} ShiftedPast(s: seq<real>, tail: seq<real>, x: real, k: nat)
    requires |s| == |tail| + 1 && k <= |tail| && s[k] == x
    requires forall i :: 0 <= i < k ==> s[i] == tail[i]
    requires forall i :: k < i < |s| ==> s[i] == tail[i - 1]
    ensures s == tail[..k] + [x] + tail[k..]
  {
  }

  /** The sort that `median` applies to its copied slice. */
  method SortFloats(a: array<real>)
    modifies a
    ensures a[..] == Sorted(old(a[..]))
  {
    ghost var was := a[..];
    var i := a.Length;
    while i > 0
      invariant 0 <= i <= a.Length
      invariant a[..i] == was[..i]
      invariant a[i..] == Sorted(was[i..])
    {
      i := i - 1;
      assert a[i] == a[..i + 1][i] == was[i];
      assert was[i..][1..] == was[i + 1..];
      InsertInPlace(a, i);
    }
  }

  function Median(s: seq<real>): real
    requires s != []
  {
    var sorted, mid := Sorted(s), |s| / 2;
    if |s| % 2 == 1 then sorted[mid] else (sorted[mid - 1] + sorted[mid]) / 2.0
  }

  method ComputeMedian(values: seq<real>) returns (m: real)
    requires values != []
    ensures m == Median(values)
  {
    var copied := new real[|values|](i requires 0 <= i < |values| => values[i]);
    assert copied[..] == values;
    SortFloats(copied);
    var mid := copied.Length / 2;
    if copied.Length % 2 == 1 {
      return copied[mid];
    }
    return (copied[mid - 1] + copied[mid]) / 2.0;
  }

  /** How many elements satisfy p. */
  ghost function Count(s: seq<real>, p: real -> bool): nat {
    if s == [] then 0 else (if p(s[0]) then 1 else 0) + Count(s[1..], p)
  }

  ghost function AtLeast(x: real): real -> bool { v => v >= x }
  ghost function AtMost(x: real): real -> bool { v => v <= x }
  ghost function EqualTo(x: real): real -> bool { v => v == x }

  lemma {:induction false} CountConcat(a: seq<real>, b: seq<real>, p: real -> bool)
    ensures Count(a + b, p) == Count(a, p) + Count(b, p)
  {
    if a == [] {
      assert a + b == b;
    } else {
      assert (a + b)[1..] == a[1..] + b;
      CountConcat(a[1..], b, p);
    }
  }

  lemma {:induction false} CountBounds(s: seq<real>, p: real -> bool)
    ensures Count(s, p) <= |s|
    ensures (forall i :: 0 <= i < |s| ==> p(s[i])) ==> Count(s, p) == |s|
    ensures (forall i :: 0 <= i < |s| ==> !p(s[i])) ==> Count(s, p) == 0
  {
    if s == [] {
    } else {
      CountBounds(s[1..], p);
      assert forall i :: 0 <= i < |s[1..]| ==> s[1..][i] == s[i + 1];
    }
  }

  lemma {:induction false} CountWeaker(s: seq<real>, p: real -> bool, q: real -> bool)
    requires forall v :: p(v) ==> q(v)
    ensures Count(s, p) <= Count(s, q)
  {
    if s == [] {
    } else {
      CountWeaker(s[1..], p, q);
    }
  }

  lemma {:induction false} CountInsert(x: real, s: seq<real>, p: real -> bool)
    ensures Count(Insert(x, s), p) == Count([x] + s, p)
  {
    assert ([x] + s)[1..] == s;
    if s != [] && x > s[0] {
      CountInsert(x, s[1..], p);
      assert ([x] + s[1..])[1..] == s[1..];
    }
  }

  lemma {:induction false} CountSorted(s: seq<real>, p: real -> bool)
    ensures Count(Sorted(s), p) == Count(s, p)
  {
    if s == [] {
    } else {
      CountSorted(s[1..], p);
      CountInsert(s[0], Sorted(s[1..]), p);
      assert ([s[0]] + Sorted(s[1..]))[1..] == Sorted(s[1..]);
    }
  }

  /** Order statistics by counting: which element sits at rank k of ascending samples. */
  lemma {:induction false} AscendingRank(t: seq<real>, k: nat, x: real)
    requires Ascending(t) && k < |t|
    ensures t[k] <= x <==> Count(t, AtMost(x)) >= k + 1
    ensures t[k] >= x <==> Count(t, AtLeast(x)) >= |t| - k
  {
    if k == 0 {
      CountBounds(t, AtLeast(x));
      CountBounds(t[1..], AtLeast(x));
    } else {
      AscendingRank(t[1..], k - 1, x);
    }
    if t[0] > x {
      CountBounds(t, AtMost(x));
    }
  }

  lemma {:induction false} RankAtLeast(s: seq<real>, k: nat, x: real)
    requires k < |s|
    ensures Sorted(s)[k] >= x <==> Count(s, AtLeast(x)) >= |s| - k
  {
    SortedIsAscending(s);
    CountSorted(s, AtLeast(x));
    AscendingRank(Sorted(s), k, x);
  }

  lemma {:induction false} RankAtMost(s: seq<real>, k: nat, x: real)
    requires k < |s|
    ensures Sorted(s)[k] <= x <==> Count(s, AtMost(x)) >= k + 1
  {
    SortedIsAscending(s);
    CountSorted(s, AtMost(x));
    AscendingRank(Sorted(s), k, x);
  }

  lemma {:induction false} CountSplit(t: seq<real>, k: nat, p: real -> bool)
    requires k <= |t|
    ensures Count(t, p) == Count(t[..k], p) + Count(t[k..], p)
  {
    assert t == t[..k] + t[k..];
    CountConcat(t[..k], t[k..], p);
  }

  /** A stretch that satisfies p counts at least in full. */
  lemma {:induction false} CountStretch(t: seq<real>, from: nat, to: nat, p: real -> bool)
    requires from <= to <= |t|
    requires forall i :: from <= i < to ==> p(t[i])
    ensures Count(t, p) >= to - from
  {
    var rest := t[from..];
    CountSplit(t, from, p);
    CountSplit(rest, to - from, p);
    CountBounds(rest[..to - from], p);
  }

  /** A value held by more than half of the samples is their median. */
  lemma {:induction false} MajorityIsMedian(s: seq<real>, v: real)
    requires 2 * Count(s, EqualTo(v)) > |s|
    ensures s != [] && Median(s) == v
  {
    CountWeaker(s, EqualTo(v), AtLeast(v));
    CountWeaker(s, EqualTo(v), AtMost(v));
    CountBounds(s, EqualTo(v));
    var mid := |s| / 2;
    RankAtLeast(s, mid, v);
    RankAtMost(s, mid, v);
    if |s| % 2 == 0 {
      RankAtLeast(s, mid - 1, v);
      RankAtMost(s, mid - 1, v);
    }
  }

  /** The two middle samples of an even number bound the median from above. */
  lemma {:induction false} EvenMedianAtMost(s: seq<real>, lo: real, hi: real)
    requires s != [] && |s| % 2 == 0
    requires Count(s, AtMost(lo)) >= |s| / 2 && Count(s, AtMost(hi)) >= |s| / 2 + 1
    ensures Median(s) <= (lo + hi) / 2.0
  {
    RankAtMost(s, |s| / 2 - 1, lo);
    RankAtMost(s, |s| / 2, hi);
  }

  lemma {:induction false} EvenMedianAtLeast(s: seq<real>, lo: real, hi: real)
    requires s != [] && |s| % 2 == 0
    requires Count(s, AtLeast(hi)) >= |s| / 2 && Count(s, AtLeast(lo)) >= |s| / 2 + 1
    ensures Median(s) >= (lo + hi) / 2.0
  {
    RankAtLeast(s, |s| / 2 - 1, lo);
    RankAtLeast(s, |s| / 2, hi);
  }

  lemma {:induction false} MedianWithin(s: seq<real>, lo: real, hi: real)
    requires s != []
    requires forall v :: v in s ==> lo <= v <= hi
    ensures lo <= Median(s) <= hi
  {
    var t := Sorted(s);
    SortedIsAscendingPermutation(s);
    forall i | 0 <= i < |t| ensures lo <= t[i] <= hi {
      assert t[i] in multiset(t);
      assert t[i] in s;
    }
  }

  /** Sliding an odd window by one sample lowers its median at most to that sample. */
  lemma {:induction false} SlideBoundsMedian(window: seq<real>, x: real)
    requires |window| % 2 == 1
    ensures Median(window[1..] + [x]) >= if x < Median(window) then x else Median(window)
  {
    var slid, mid, before := window[1..] + [x], |window| / 2, Median(window);
    var floor := if x < before then x else before;
    RankAtLeast(window, mid, before);
    CountConcat(window[1..], [x], AtLeast(floor));
    CountWeaker(window[1..], AtLeast(before), AtLeast(floor));
    RankAtLeast(slid, mid, floor);
  }
}
