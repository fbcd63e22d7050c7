/** Sums over finite sets, and their regrouping. */
module FiniteSums {

  ghost function SumOver<K(!new)>(keys: set<K>, f: K -> real): real {
    if keys == {} then 0.0
    else
      var k :| k in keys;
      f(k) + SumOver(keys - {k}, f)
  }

  lemma {:induction false} SumRemove<K(!new)>(keys: set<K>, f: K -> real, k: K)
    requires k in keys
    ensures SumOver(keys, f) == f(k) + SumOver(keys - {k}, f)
  {
    var j :| j in keys && SumOver(keys, f) == f(j) + SumOver(keys - {j}, f);
    if j != k {
      SumRemove(keys - {j}, f, k);
      SumRemove(keys - {k}, f, j);
      assert keys - {j} - {k} == keys - {k} - {j};
    }
  }

  lemma {:induction false} SumUnion<K(!new)>(a: set<K>, b: set<K>, f: K -> real)
    requires a !! b
    ensures SumOver(a + b, f) == SumOver(a, f) + SumOver(b, f)
  {
    if a == {} {
      assert a + b == b;
    } else {
      var k :| k in a;
      SumRemove(a, f, k);
      SumRemove(a + b, f, k);
      assert a + b - {k} == (a - {k}) + b;
      SumUnion(a - {k}, b, f);
    }
  }

  lemma {:induction false} SumSame<K(!new)>(keys: set<K>, f: K -> real, g: K -> real)
    requires forall k :: k in keys ==> f(k) == g(k)
    ensures SumOver(keys, f) == SumOver(keys, g)
  {
    if keys == {} {
    } else {
      var k :| k in keys;
      SumRemove(keys, f, k);
      SumRemove(keys, g, k);
      SumSame(keys - {k}, f, g);
    }
  }

  lemma {:induction false} SumNonNegative<K(!new)>(keys: set<K>, f: K -> real)
    requires forall k :: k in keys ==> f(k) >= 0.0
    ensures SumOver(keys, f) >= 0.0
    ensures SumOver(keys, f) == 0.0 ==> forall k :: k in keys ==> f(k) == 0.0
  {
    if keys == {} {
    } else {
      var k :| k in keys;
      SumRemove(keys, f, k);
      SumNonNegative(keys - {k}, f);
    }
  }

  lemma {:induction false} SumZero<K(!new)>(keys: set<K>, f: K -> real)
    requires forall k :: k in keys ==> f(k) == 0.0
    ensures SumOver(keys, f) == 0.0
  {
    if keys == {} {
    } else {
      var k :| k in keys;
      SumRemove(keys, f, k);
      SumZero(keys - {k}, f);
    }
  }

  /** The members of a set that a grouping sends to h. */
  function Group<K(!new), H(==)>(keys: set<K>, group: K -> H, h: H): set<K> {
    set k | k in keys && group(k) == h
  }

  ghost function GroupSum<K(!new), H(!new)>(keys: set<K>, group: K -> H, f: K -> real): H -> real {
    h => SumOver(Group(keys, group, h), f)
  }

  /** Summing group by group is summing everything. */
  lemma {:induction false} SumByGroups<K(!new), H(!new)>(keys: set<K>, groups: set<H>, group: K -> H, f: K -> real)
    requires forall k :: k in keys ==> group(k) in groups
    ensures SumOver(groups, GroupSum(keys, group, f)) == SumOver(keys, f)
  {
    if groups == {} {
      assert keys == {};
    } else {
      var h :| h in groups;
      var here := Group(keys, group, h);
      var rest := keys - here;
      SumByGroups(rest, groups - {h}, group, f);
      forall j | j in groups - {h} ensures GroupSum(keys, group, f)(j) == GroupSum(rest, group, f)(j) {
        assert Group(keys, group, j) == Group(rest, group, j);
      }
      SumSame(groups - {h}, GroupSum(keys, group, f), GroupSum(rest, group, f));
      SumRemove(groups, GroupSum(keys, group, f), h);
      SumUnion(here, rest, f);
      assert here + rest == keys;
    }
  }
}
