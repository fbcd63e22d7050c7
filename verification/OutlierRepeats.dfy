/**
 A far reading that is offered to the outlier filter again and again
 (cmd/hm-ble-collector/main.go:698-741), as a window is whose writes fail.
 */
module OutlierRepeats {
  import opened OrderStatistics
  import opened OutlierFilter
  import opened Reals
  import opened Sequences

  function Repeat<T>(x: T, n: nat): (s: seq<T>)
    ensures |s| == n && forall i :: 0 <= i < n ==> s[i] == x
  {
    if n == 0 then [] else Repeat(x, n - 1) + [x]
  }

  lemma {:induction false} OneMore<T>(s: seq<T>, x: T, n: nat)
    ensures s + Repeat(x, n + 1) == s + Repeat(x, n) + [x]
  {
  }

  lemma {:induction false} TwoMore<T>(s: seq<T>, x: T, n: nat)
    ensures s + Repeat(x, n) + [x, x] == s + Repeat(x, n + 2)
  {
  }

  /** Whether v lies within the threshold of the baseline that these accepted values make. */
  ghost predicate IsNear(c: Screen, accepted: seq<real>, v: real) {
    var window := LastN(accepted, c.size);
    |window| < 3 || Abs(v - Median(window)) <= c.threshold
  }

  lemma {:induction false} NearIsNearBaseline(c: Screen, past: seq<Reading>, v: real)
    ensures NearBaseline(c, past, v) <==> IsNear(c, AcceptedBy(c, past), v)
  {
  }

  // ---------------------------------------------------------------- the majority of a window

  ghost function Inside(lo: real, hi: real): real -> bool { v => lo <= v <= hi }

  /** More than half of the window lies in the band. */
  ghost predicate BandRules(c: Screen, accepted: seq<real>, lo: real, hi: real) {
    var window := LastN(accepted, c.size);
    2 * Count(window, Inside(lo, hi)) > |window|
  }

  lemma {:induction false} MajorityBoundsMedian(window: seq<real>, lo: real, hi: real)
    requires 2 * Count(window, Inside(lo, hi)) > |window|
    ensures window != [] && InBand(Median(window), lo, hi)
  {
    CountWeaker(window, Inside(lo, hi), AtLeast(lo));
    CountWeaker(window, Inside(lo, hi), AtMost(hi));
    CountBounds(window, Inside(lo, hi));
    var mid := |window| / 2;
    RankAtLeast(window, mid, lo);
    RankAtMost(window, mid, hi);
    if |window| % 2 == 0 {
      RankAtLeast(window, mid - 1, lo);
      RankAtMost(window, mid - 1, hi);
    }
  }

  ghost predicate IsFar(c: Screen, v: real, lo: real, hi: real) { v < lo - c.threshold || v > hi + c.threshold }

  /** While the band rules, its values are near and far values are not. */
  lemma {:induction false} BandDecides(c: Screen, accepted: seq<real>, v: real, lo: real, hi: real)
    requires BandRules(c, accepted, lo, hi) && lo <= hi <= lo + c.threshold
    ensures InBand(v, lo, hi) ==> IsNear(c, accepted, v)
    ensures IsFar(c, v, lo, hi) && |accepted| >= 3 && c.size >= 3 ==> !IsNear(c, accepted, v)
  {
    MajorityBoundsMedian(LastN(accepted, c.size), lo, hi);
  }

  /** One value more: the oldest one leaves a full window. */
  lemma {:induction false} CountSlides(accepted: seq<real>, v: real, size: nat, p: real -> bool)
    requires size > 0
    ensures var window, next := LastN(accepted, size), LastN(accepted + [v], size);
      var gone := if |accepted| >= size && p(accepted[|accepted| - size]) then 1 else 0;
      Count(next, p) == Count(window, p) + (if p(v) then 1 else 0) - gone
  {
    var window, next := LastN(accepted, size), LastN(accepted + [v], size);
    if |accepted| < size {
      assert next == window + [v];
    } else {
      assert next == window[1..] + [v] && window[0] == accepted[|accepted| - size];
      CountConcat(window[1..], [v], p);
    }
    CountConcat(window, [v], p);
  }

  lemma {:induction false} BandStays(c: Screen, accepted: seq<real>, v: real, lo: real, hi: real)
    requires c.size > 0 && BandRules(c, accepted, lo, hi) && InBand(v, lo, hi)
    ensures BandRules(c, accepted + [v], lo, hi)
  {
    CountSlides(accepted, v, c.size, Inside(lo, hi));
  }

  /** If the band rules after some value outside it, it ruled before. */
  lemma {:induction false} BandRuledBefore(c: Screen, accepted: seq<real>, v: real, lo: real, hi: real)
    requires c.size > 0 && !InBand(v, lo, hi) && BandRules(c, accepted + [v], lo, hi)
    ensures BandRules(c, accepted, lo, hi)
  {
    CountSlides(accepted, v, c.size, Inside(lo, hi));
  }

  lemma {:induction false} BandRuledWith(c: Screen, accepted: seq<real>, v: real, k: nat, n: nat, lo: real, hi: real)
    requires c.size > 0 && !InBand(v, lo, hi) && k <= n && BandRules(c, accepted + Repeat(v, n), lo, hi)
    ensures BandRules(c, accepted + Repeat(v, k), lo, hi)
    decreases n
  {
    if k == n {
    } else {
      OneMore(accepted, v, n - 1);
      BandRuledBefore(c, accepted + Repeat(v, n - 1), v, lo, hi);
      BandRuledWith(c, accepted, v, k, n - 1, lo, hi);
    }
  }

  // ---------------------------------------------------------------- once near, always near

  /** The next window ranks no lower, as far as the old one lay below v. */
  lemma {:induction false} RankRises(accepted: seq<real>, v: real, size: nat, k: nat, k': nat)
    requires size > 0 && k < |LastN(accepted, size)| && k <= k' < |LastN(accepted + [v], size)|
    requires Sorted(LastN(accepted, size))[k] <= v
    ensures Sorted(LastN(accepted + [v], size))[k'] >= Sorted(LastN(accepted, size))[k]
  {
    var window, next := LastN(accepted, size), LastN(accepted + [v], size);
    var x := Sorted(window)[k];
    RankAtLeast(window, k, x);
    CountSlides(accepted, v, size, AtLeast(x));
    RankAtLeast(next, k', x);
  }

  lemma {:induction false} RankFalls(accepted: seq<real>, v: real, size: nat, k: nat, k': nat)
    requires size > 0 && k < |LastN(accepted, size)| && k' < |LastN(accepted + [v], size)|
    requires |LastN(accepted, size)| - k <= |LastN(accepted + [v], size)| - k'
    requires Sorted(LastN(accepted, size))[k] >= v
    ensures Sorted(LastN(accepted + [v], size))[k'] <= Sorted(LastN(accepted, size))[k]
  {
    var window, next := LastN(accepted, size), LastN(accepted + [v], size);
    var x := Sorted(window)[k];
    RankAtMost(window, k, x);
    CountSlides(accepted, v, size, AtMost(x));
    RankAtMost(next, k', x);
  }

  /** Most of the window lies on the band's side of v, or at v. */
  ghost predicate MostBelow(c: Screen, accepted: seq<real>, v: real) {
    2 * Count(LastN(accepted, c.size), AtMost(v)) > |LastN(accepted, c.size)|
  }

  ghost predicate MostAbove(c: Screen, accepted: seq<real>, v: real) {
    2 * Count(LastN(accepted, c.size), AtLeast(v)) > |LastN(accepted, c.size)|
  }

  lemma {:induction false} MedianRises(c: Screen, accepted: seq<real>, v: real)
    requires c.size > 0 && accepted != [] && MostBelow(c, accepted, v)
    ensures Median(LastN(accepted, c.size)) <= Median(LastN(accepted + [v], c.size)) <= v
  {
    var window, next := LastN(accepted, c.size), LastN(accepted + [v], c.size);
    SideStays(c, accepted, v);
    MiddleIsBelow(window, v);
    MiddleIsBelow(next, v);
    RankRises(accepted, v, c.size, |window| / 2, |next| / 2);
    RankRises(accepted, v, c.size, (|window| - 1) / 2, (|next| - 1) / 2);
    MedianIsMiddle(window);
    MedianIsMiddle(next);
  }

  /** The median as the mean of the two middle ranks, which are one in an odd window. */
  lemma {:induction false} MedianIsMiddle(s: seq<real>)
    requires s != []
    ensures Median(s) == (Sorted(s)[(|s| - 1) / 2] + Sorted(s)[|s| / 2]) / 2.0
  {
  }

  lemma {:induction false} MiddleIsBelow(window: seq<real>, v: real)
    requires 2 * Count(window, AtMost(v)) > |window|
    ensures window != [] && Sorted(window)[|window| / 2] <= v && Sorted(window)[(|window| - 1) / 2] <= v
    ensures Median(window) <= v
  {
    CountBounds(window, AtMost(v));
    RankAtMost(window, |window| / 2, v);
    RankAtMost(window, (|window| - 1) / 2, v);
  }

  lemma {:induction false} MedianFalls(c: Screen, accepted: seq<real>, v: real)
    requires c.size > 0 && accepted != [] && MostAbove(c, accepted, v)
    ensures v <= Median(LastN(accepted + [v], c.size)) <= Median(LastN(accepted, c.size))
  {
    var window, next := LastN(accepted, c.size), LastN(accepted + [v], c.size);
    SideStays(c, accepted, v);
    MiddleIsAbove(window, v);
    MiddleIsAbove(next, v);
    RankFalls(accepted, v, c.size, (|window| - 1) / 2, (|next| - 1) / 2);
    RankFalls(accepted, v, c.size, |window| / 2, |next| / 2);
    MedianIsMiddle(window);
    MedianIsMiddle(next);
  }

  lemma {:induction false} MiddleIsAbove(window: seq<real>, v: real)
    requires 2 * Count(window, AtLeast(v)) > |window|
    ensures window != [] && Sorted(window)[|window| / 2] >= v && Sorted(window)[(|window| - 1) / 2] >= v
    ensures Median(window) >= v
  {
    CountBounds(window, AtLeast(v));
    RankAtLeast(window, |window| / 2, v);
    RankAtLeast(window, (|window| - 1) / 2, v);
  }

  lemma {:induction false} SideStays(c: Screen, accepted: seq<real>, v: real)
    requires c.size > 0
    ensures MostBelow(c, accepted, v) ==> MostBelow(c, accepted + [v], v)
    ensures MostAbove(c, accepted, v) ==> MostAbove(c, accepted + [v], v)
  {
    CountSlides(accepted, v, c.size, AtMost(v));
    CountSlides(accepted, v, c.size, AtLeast(v));
  }

  /** However often a value outside the band is added, most of the window stays on the band's side of it. */
  lemma {:induction false} CopiesKeepSide(c: Screen, accepted: seq<real>, v: real, n: nat, lo: real, hi: real)
    requires c.size > 0 && BandRules(c, accepted, lo, hi) && !InBand(v, lo, hi)
    ensures v > hi ==> MostBelow(c, accepted + Repeat(v, n), v)
    ensures v < lo ==> MostAbove(c, accepted + Repeat(v, n), v)
  {
    if n == 0 {
      assert accepted + Repeat(v, 0) == accepted;
      if v > hi {
        CountWeaker(LastN(accepted, c.size), Inside(lo, hi), AtMost(v));
      }
      if v < lo {
        CountWeaker(LastN(accepted, c.size), Inside(lo, hi), AtLeast(v));
      }
    } else {
      CopiesKeepSide(c, accepted, v, n - 1, lo, hi);
      OneMore(accepted, v, n - 1);
      SideStays(c, accepted + Repeat(v, n - 1), v);
    }
  }

  /** Seen from one side, one value more moves the median towards it. */
  lemma {:induction false} OneMoreIsNear(c: Screen, accepted: seq<real>, v: real)
    requires c.size >= 3 && |accepted| >= 3 && (MostBelow(c, accepted, v) || MostAbove(c, accepted, v))
    ensures IsNear(c, accepted, v) ==> IsNear(c, accepted + [v], v)
  {
    if MostBelow(c, accepted, v) {
      MedianRises(c, accepted, v);
    } else {
      MedianFalls(c, accepted, v);
    }
  }

  // ---------------------------------------------------------------- offered again and again

  /** Every second offer passes, and every one once the earlier ones made the reading near. */
  predicate PassesAfter(n: nat, near: bool) { n % 2 == 1 || near }

  /**
   Retries of a far reading are withheld and confirmed in turn, until the copies that were
   accepted make it near; from then on every retry is accepted.
   */
  lemma {:induction false} RetriesUntilNear(c: Screen, past: seq<Reading>, r: Reading, n: nat, lo: real, hi: real)
    requires c.size >= 3 && lo <= hi <= lo + c.threshold && c.confirmWindow >= 0
    requires BandRules(c, AcceptedBy(c, past), lo, hi) && |AcceptedBy(c, past)| >= 3
    requires IsFar(c, r.value, lo, hi) && !ConfirmsPrevious(c, past, r)
    ensures Kept(c, past + Repeat(r, n + 1))
      == PassesAfter(n, IsNear(c, AcceptedBy(c, past) + Repeat(r.value, n), r.value))
    ensures AcceptedBy(c, past + Repeat(r, n + 1))
      == AcceptedBy(c, past) + Repeat(r.value, if Kept(c, past + Repeat(r, n + 1)) then n + 1 else n)
  {
    var accepted, v := AcceptedBy(c, past), r.value;
    OneMore(past, r, n);
    if n == 0 {
      assert past + Repeat(r, 0) == past && accepted + Repeat(v, 0) == accepted;
      BandDecides(c, accepted, v, lo, hi);
      NearIsNearBaseline(c, past, v);
      NextAccepted(c, past, r);
    } else {
      RetriesUntilNear(c, past, r, n - 1, lo, hi);
      NearGrows(c, accepted, v, n - 1, lo, hi);
      NextRetry(c, past + Repeat(r, n), r, accepted, n, IsNear(c, accepted + Repeat(v, n - 1), v),
                IsNear(c, accepted + Repeat(v, n), v));
    }
  }

  lemma {:induction false} NearGrows(c: Screen, accepted: seq<real>, v: real, n: nat, lo: real, hi: real)
    requires c.size >= 3 && |accepted| >= 3 && BandRules(c, accepted, lo, hi) && !InBand(v, lo, hi) && lo <= hi
    ensures IsNear(c, accepted + Repeat(v, n), v) ==> IsNear(c, accepted + Repeat(v, n + 1), v)
  {
    CopiesKeepSide(c, accepted, v, n, lo, hi);
    OneMore(accepted, v, n);
    OneMoreIsNear(c, accepted + Repeat(v, n), v);
  }

  lemma {:induction false} NextRetry(c: Screen, before: seq<Reading>, r: Reading, accepted: seq<real>, n: nat,
                                     wasNear: bool, isNear: bool)
    requires c.threshold >= 0.0 && c.confirmWindow >= 0 && n > 0 && before != [] && Last(before) == r
    requires Kept(c, before) == PassesAfter(n - 1, wasNear) && (wasNear ==> isNear)
    requires isNear == IsNear(c, accepted + Repeat(r.value, n), r.value)
    requires AcceptedBy(c, before) == accepted + Repeat(r.value, if Kept(c, before) then n else n - 1)
    ensures Kept(c, before + [r]) == PassesAfter(n, isNear)
    ensures AcceptedBy(c, before + [r]) == accepted + Repeat(r.value, if Kept(c, before + [r]) then n + 1 else n)
  {
    if Kept(c, before) {
      RetryAfterKept(c, before, r, accepted, n);
    } else {
      RetryAfterWithheld(c, before, r, accepted, n);
    }
  }

  lemma {:induction false} RetryAfterWithheld(c: Screen, before: seq<Reading>, r: Reading, accepted: seq<real>, n: nat)
    requires c.threshold >= 0.0 && c.confirmWindow >= 0 && n > 0 && before != [] && Last(before) == r
    requires !Kept(c, before) && AcceptedBy(c, before) == accepted + Repeat(r.value, n - 1)
    ensures Kept(c, before + [r]) && AcceptedBy(c, before + [r]) == accepted + Repeat(r.value, n + 1)
  {
    RepeatConfirms(c, before, r);
    TwoMore(accepted, r.value, n - 1);
  }

  lemma {:induction false} RetryAfterKept(c: Screen, before: seq<Reading>, r: Reading, accepted: seq<real>, n: nat)
    requires before != [] && Kept(c, before) && AcceptedBy(c, before) == accepted + Repeat(r.value, n)
    ensures Kept(c, before + [r]) <==> IsNear(c, accepted + Repeat(r.value, n), r.value)
    ensures AcceptedBy(c, before + [r]) == accepted + Repeat(r.value, if Kept(c, before + [r]) then n + 1 else n)
  {
    NearIsNearBaseline(c, before, r.value);
    NextAccepted(c, before, r);
    OneMore(accepted, r.value, n);
  }

  // ---------------------------------------------------------------- near, by counting

  /**
   Whether n copies of v take over the window: they outnumber the accepted values that are
   left in it, or equal them in number and one of those is within two thresholds of v.
   */
  ghost predicate TakesOver(c: Screen, accepted: seq<real>, v: real, n: nat) {
    n > c.size || Outnumber(c, LastN(accepted, c.size - n), v, n)
  }

  ghost predicate Outnumber(c: Screen, rest: seq<real>, v: real, n: nat) {
    n > |rest| || (n == |rest| && exists b :: b in rest && Abs(v - b) <= 2.0 * c.threshold)
  }

  /** In a full window of odd size no tie is possible. */
  lemma {:induction false} OddWindowTakenOverIff(c: Screen, accepted: seq<real>, v: real, n: nat)
    requires c.size % 2 == 1 && |accepted| >= c.size
    ensures TakesOver(c, accepted, v, n) <==> 2 * n > c.size
  {
  }

  /** With the default size of 5 and a full history, two failures in a row are the only ones that hide a spike. */
  lemma {:induction false} DefaultSizeHidesTwo(c: Screen, accepted: seq<real>, v: real, n: nat)
    requires c.size == 5 && |accepted| >= 5
    ensures n % 2 == 1 || TakesOver(c, accepted, v, n) <==> n != 0 && n != 2
  {
    OddWindowTakenOverIff(c, accepted, v, n);
  }

  lemma {:induction false} WindowWithCopies(accepted: seq<real>, v: real, n: nat, size: nat)
    requires n <= size
    ensures LastN(accepted + Repeat(v, n), size) == LastN(accepted, size - n) + Repeat(v, n)
  {
  }

  lemma {:induction false} CountCopies(s: seq<real>, v: real, n: nat, p: real -> bool)
    ensures Count(s + Repeat(v, n), p) == Count(s, p) + if p(v) then n else 0
  {
    CountConcat(s, Repeat(v, n), p);
    CountBounds(Repeat(v, n), p);
  }

  lemma {:induction false} CountIsPositive(s: seq<real>, p: real -> bool)
    ensures Count(s, p) > 0 <==> exists b :: b in s && p(b)
  {
    if s == [] {
    } else {
      CountIsPositive(s[1..], p);
      assert forall b :: b in s <==> b == s[0] || b in s[1..];
    }
  }

  ghost predicate AllInBand(values: seq<real>, lo: real, hi: real) {
    forall v :: v in values ==> InBand(v, lo, hi)
  }

  lemma {:induction false} AllInBandRules(c: Screen, accepted: seq<real>, lo: real, hi: real)
    requires AllInBand(accepted, lo, hi) && accepted != [] && c.size > 0
    ensures BandRules(c, accepted, lo, hi)
  {
    var window := LastN(accepted, c.size);
    assert forall i :: 0 <= i < |window| ==> window[i] in accepted;
    CountBounds(window, Inside(lo, hi));
  }

  /** The counting condition is exact. */
  lemma {:induction false} NearIffTakesOver(c: Screen, accepted: seq<real>, v: real, n: nat, lo: real, hi: real)
    requires c.size >= 3 && c.threshold >= 0.0 && lo <= hi && |accepted| >= 3
    requires AllInBand(accepted, lo, hi) && IsFar(c, v, lo, hi)
    ensures IsNear(c, accepted + Repeat(v, n), v) <==> TakesOver(c, accepted, v, n)
  {
    if n > c.size {
      OnlyCopies(c, accepted, v, n);
    } else {
      PartInBand(accepted, c.size - n, lo, hi);
      NearIffOutnumber(c, accepted, LastN(accepted, c.size - n), v, n, lo, hi);
    }
  }

  lemma {:induction false} NearIffOutnumber(c: Screen, accepted: seq<real>, rest: seq<real>, v: real, n: nat, lo: real,
                                            hi: real)
    requires n <= c.size && c.size >= 3 && c.threshold >= 0.0 && lo <= hi && |accepted| >= 3
    requires rest == LastN(accepted, c.size - n) && AllInBand(rest, lo, hi) && IsFar(c, v, lo, hi)
    ensures IsNear(c, accepted + Repeat(v, n), v) <==> Outnumber(c, rest, v, n)
  {
    WindowWithCopies(accepted, v, n, c.size);
    NearWithCopies(c, rest, v, n, lo, hi);
    NearInWindow(c, accepted + Repeat(v, n), rest + Repeat(v, n), v);
  }

  lemma {:induction false} NearInWindow(c: Screen, accepted: seq<real>, window: seq<real>, v: real)
    requires window == LastN(accepted, c.size) && |window| >= 3
    ensures IsNear(c, accepted, v) <==> Abs(v - Median(window)) <= c.threshold
  {
  }

  lemma {:induction false} OnlyCopies(c: Screen, accepted: seq<real>, v: real, n: nat)
    requires n > c.size >= 3 && c.threshold >= 0.0
    ensures IsNear(c, accepted + Repeat(v, n), v)
  {
    var window := LastN(accepted + Repeat(v, n), c.size);
    CountStretch(window, 0, |window|, EqualTo(v));
    MajorityIsMedian(window, v);
  }

  lemma {:induction false} PartInBand(accepted: seq<real>, n: nat, lo: real, hi: real)
    requires AllInBand(accepted, lo, hi)
    ensures AllInBand(LastN(accepted, n), lo, hi)
  {
  }

  lemma {:induction false} NearWithCopies(c: Screen, rest: seq<real>, v: real, n: nat, lo: real, hi: real)
    requires c.threshold >= 0.0 && lo <= hi && |rest| + n >= 3 && AllInBand(rest, lo, hi) && IsFar(c, v, lo, hi)
    ensures Abs(v - Median(rest + Repeat(v, n))) <= c.threshold <==> Outnumber(c, rest, v, n)
  {
    var window := rest + Repeat(v, n);
    if n > |rest| {
      CountCopies(rest, v, n, EqualTo(v));
      MajorityIsMedian(window, v);
    } else if n < |rest| {
      CountCopies(rest, v, n, Inside(lo, hi));
      assert forall i :: 0 <= i < |rest| ==> rest[i] in rest;
      CountBounds(rest, Inside(lo, hi));
      MajorityBoundsMedian(window, lo, hi);
    } else if v > hi {
      HalfBelow(c, rest, v);
    } else {
      HalfAbove(c, rest, v);
    }
  }

  /** Half of the window at v, the other half below it. */
  lemma {:induction false} HalfBelow(c: Screen, rest: seq<real>, v: real)
    requires c.threshold >= 0.0 && rest != [] && forall b :: b in rest ==> b <= v
    ensures Abs(v - Median(rest + Repeat(v, |rest|))) <= c.threshold
      <==> exists b :: b in rest && Abs(v - b) <= 2.0 * c.threshold
  {
    var n, window, x := |rest|, rest + Repeat(v, |rest|), v - 2.0 * c.threshold;
    MiddleOfHalves(rest, v);
    CountCopies(rest, v, n, AtLeast(x));
    RankAtLeast(window, n - 1, x);
    assert Sorted(window)[n - 1] >= x <==> Count(rest, AtLeast(x)) > 0;
    SomeCloseBelow(rest, v, x);
  }

  /** The two middle ranks, where half of the window is at v and the other half on one side of it. */
  lemma {:induction false} MiddleOfHalves(rest: seq<real>, v: real)
    requires rest != []
    ensures var sorted, n := Sorted(rest + Repeat(v, |rest|)), |rest|;
      && ((forall b :: b in rest ==> b <= v) ==> sorted[n] == v && sorted[n - 1] <= v)
      && ((forall b :: b in rest ==> b >= v) ==> sorted[n - 1] == v && sorted[n] >= v)
      && Median(rest + Repeat(v, |rest|)) == (sorted[n - 1] + sorted[n]) / 2.0
  {
    var n, window := |rest|, rest + Repeat(v, |rest|);
    CountCopies(rest, v, n, AtMost(v));
    CountCopies(rest, v, n, AtLeast(v));
    CountAllOrNone(rest, v);
    RankAtMost(window, n, v);
    RankAtLeast(window, n, v);
    RankAtMost(window, n - 1, v);
    RankAtLeast(window, n - 1, v);
    SortedIsAscending(window);
  }

  lemma {:induction false} CountAllOrNone(rest: seq<real>, v: real)
    ensures (forall b :: b in rest ==> b <= v) ==> Count(rest, AtMost(v)) == |rest|
    ensures (forall b :: b in rest ==> b >= v) ==> Count(rest, AtLeast(v)) == |rest|
  {
    assert forall i :: 0 <= i < |rest| ==> rest[i] in rest;
    CountBounds(rest, AtMost(v));
    CountBounds(rest, AtLeast(v));
  }

  lemma {:induction false} SomeCloseBelow(rest: seq<real>, v: real, x: real)
    requires x <= v && forall b :: b in rest ==> b <= v
    ensures Count(rest, AtLeast(x)) > 0 <==> exists b :: b in rest && Abs(v - b) <= v - x
  {
    CountIsPositive(rest, AtLeast(x));
    assert forall b :: b in rest ==> (AtLeast(x)(b) <==> Abs(v - b) <= v - x);
  }

  lemma {:induction false} HalfAbove(c: Screen, rest: seq<real>, v: real)
    requires c.threshold >= 0.0 && rest != [] && forall b :: b in rest ==> b >= v
    ensures Abs(v - Median(rest + Repeat(v, |rest|))) <= c.threshold
      <==> exists b :: b in rest && Abs(v - b) <= 2.0 * c.threshold
  {
    var n, window, x := |rest|, rest + Repeat(v, |rest|), v + 2.0 * c.threshold;
    MiddleOfHalves(rest, v);
    CountCopies(rest, v, n, AtMost(x));
    RankAtMost(window, n, x);
    assert Sorted(window)[n] <= x <==> Count(rest, AtMost(x)) > 0;
    SomeCloseAbove(rest, v, x);
  }

  lemma {:induction false} SomeCloseAbove(rest: seq<real>, v: real, x: real)
    requires x >= v && forall b :: b in rest ==> b >= v
    ensures Count(rest, AtMost(x)) > 0 <==> exists b :: b in rest && Abs(v - b) <= x - v
  {
    CountIsPositive(rest, AtMost(x));
    assert forall b :: b in rest ==> (AtMost(x)(b) <==> Abs(v - b) <= x - v);
  }

  /** In a full window of odd size, the copies are near as soon as the band no longer rules. */
  lemma {:induction false} OddWindowDecides(c: Screen, accepted: seq<real>, v: real, n: nat, lo: real, hi: real)
    requires c.size >= 3 && c.size % 2 == 1 && |accepted| >= c.size && c.threshold >= 0.0 && lo <= hi
    requires AllInBand(accepted, lo, hi) && IsFar(c, v, lo, hi)
    ensures BandRules(c, accepted + Repeat(v, n), lo, hi) || IsNear(c, accepted + Repeat(v, n), v)
  {
    NearIffTakesOver(c, accepted, v, n, lo, hi);
    OddWindowTakenOverIff(c, accepted, v, n);
    if 2 * n < c.size {
      MinorityLeavesBand(c, accepted, v, n, lo, hi);
    }
  }

  lemma {:induction false} MinorityLeavesBand(c: Screen, accepted: seq<real>, v: real, n: nat, lo: real, hi: real)
    requires 2 * n < c.size <= |accepted| && AllInBand(accepted, lo, hi)
    ensures BandRules(c, accepted + Repeat(v, n), lo, hi)
  {
    var rest := LastN(accepted, c.size - n);
    WindowWithCopies(accepted, v, n, c.size);
    CountCopies(rest, v, n, Inside(lo, hi));
    assert forall i :: 0 <= i < |rest| ==> rest[i] in accepted;
    CountBounds(rest, Inside(lo, hi));
  }
}
