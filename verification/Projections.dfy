/**
 A projection summarises the timed records of a group as a count, an earliest and a latest time. This
 module says when a summary is exact, when it is only a bound, and how both survive adding and removing
 records; and that exact counts of a partition add up to the whole.
 */
module Projections {

  datatype Summary = Summary(count: int, first: int, last: int)

  function Min(a: int, b: int): int { if a <= b then a else b }

  function Max(a: int, b: int): int { if a >= b then a else b }

  /** One record more, as an upsert counts it. */
  function Plus(s: Summary, time: int): Summary
  {
    Summary(s.count + 1, Min(s.first, time), Max(s.last, time))
  }

  /** At least the records of the group are counted, and none lies outside the times. */
  ghost predicate Bounds<K(!new)>(s: Summary, ids: set<K>, at: map<K, int>)
  {
    s.count >= |ids| && forall e {:trigger at[e]} :: e in ids && e in at ==> s.first <= at[e] <= s.last
  }

  ghost predicate Reached<K(!new)>(time: int, ids: set<K>, at: map<K, int>)
  {
    exists e :: e in ids && e in at && at[e] == time
  }

  /** Exactly the records of the group are counted, and both times are those of a record. */
  ghost predicate Exact<K(!new)>(s: Summary, ids: set<K>, at: map<K, int>)
  {
    Bounds(s, ids, at) && s.count == |ids| && Reached(s.first, ids, at) && Reached(s.last, ids, at)
  }

  lemma ExactOne<K(!new)>(e: K, at: map<K, int>)
    requires e in at
    ensures Exact(Summary(1, at[e], at[e]), {e}, at)
  {
  }

  lemma BoundsAdd<K(!new)>(s: Summary, ids: set<K>, at: map<K, int>, e: K)
    requires e in at && e !in ids && Bounds(s, ids, at)
    ensures Bounds(Plus(s, at[e]), ids + {e}, at)
  {
    assert |ids + {e}| == |ids| + 1;
  }

  lemma ExactAdd<K(!new)>(s: Summary, ids: set<K>, at: map<K, int>, e: K)
    requires e in at && e !in ids && Exact(s, ids, at)
    ensures Exact(Plus(s, at[e]), ids + {e}, at)
  {
    BoundsAdd(s, ids, at, e);
    assert |ids + {e}| == |ids| + 1;
    var more := ids + {e};
    var lo :| lo in ids && lo in at && at[lo] == s.first;
    var hi :| hi in ids && hi in at && at[hi] == s.last;
    assert lo in more && hi in more && e in more;
  }

  lemma SubsetSize<K>(a: set<K>, b: set<K>)
    requires a <= b
    ensures |a| <= |b|
  {
    assert b == a + (b - a);
  }

  /** An exact summary says everything a summary can: it does not depend on how the records came in. */
  lemma ExactIsUnique<K(!new)>(s: Summary, s': Summary, ids: set<K>, at: map<K, int>)
    requires Exact(s, ids, at) && Exact(s', ids, at)
    ensures s == s'
  {
    var a :| a in ids && a in at && at[a] == s.first;
    var b :| b in ids && b in at && at[b] == s.last;
    var c :| c in ids && c in at && at[c] == s'.first;
    var d :| d in ids && d in at && at[d] == s'.last;
    assert s.first <= at[c] && s'.first <= at[a] && at[d] <= s.last && at[b] <= s'.last;
  }

  lemma {:induction false} ExactExists<K(!new)>(ids: set<K>, at: map<K, int>)
    requires ids != {} && ids <= at.Keys
    ensures exists s :: Exact(s, ids, at)
    decreases |ids|
  {
    var e :| e in ids;
    var rest := ids - {e};
    assert ids == rest + {e};
    if rest == {} {
      ExactOne(e, at);
      assert ids == {e};
      assert Exact(Summary(1, at[e], at[e]), ids, at);
    } else {
      ExactExists(rest, at);
      var s :| Exact(s, rest, at);
      ExactAdd(s, rest, at, e);
      assert Exact(Plus(s, at[e]), ids, at);
    }
  }

  /** `count(*)`, `min` and `max` over the records of a group. */
  ghost function Recount<K(!new)>(ids: set<K>, at: map<K, int>): (s: Summary)
    requires ids != {} && ids <= at.Keys
    ensures Exact(s, ids, at)
  {
    ExactExists(ids, at);
    var s :| Exact(s, ids, at);
    s
  }

  // ----- adding up -----

  ghost function Sum<K>(keys: set<K>, value: map<K, int>): int
    requires keys <= value.Keys
  {
    if keys == {} then 0
    else
      var k :| k in keys;
      value[k] + Sum(keys - {k}, value)
  }

  lemma {:induction false} SumPick<K>(keys: set<K>, value: map<K, int>, k: K)
    requires keys <= value.Keys && k in keys
    ensures Sum(keys, value) == value[k] + Sum(keys - {k}, value)
    decreases |keys|
  {
    var first :| first in keys && Sum(keys, value) == value[first] + Sum(keys - {first}, value);
    if first != k {
      SumPick(keys - {first}, value, k);
      SumPick(keys - {k}, value, first);
      assert keys - {first} - {k} == keys - {k} - {first};
    }
  }

  /** The records of a group. */
  ghost function Group<E(!new), K>(records: set<E>, owner: map<E, K>, k: K): set<E>
  {
    set e | e in records && e in owner && owner[e] == k
  }

  /** When every record belongs to a group and every group is counted exactly, the counts add up to the records. */
  lemma {:induction false} CountsAddUp<E(!new), K>(records: set<E>, owner: map<E, K>, keys: set<K>, value: map<K, int>)
    requires records <= owner.Keys && keys <= value.Keys
    requires forall e :: e in records ==> owner[e] in keys
    requires forall k :: k in keys ==> value[k] == |Group(records, owner, k)|
    ensures Sum(keys, value) == |records|
    decreases |keys|
  {
    if keys == {} {
      assert records == {};
    } else {
      var k :| k in keys;
      var own := Group(records, owner, k);
      var others := records - own;
      forall k' | k' in keys - {k}
        ensures value[k'] == |Group(others, owner, k')|
      {
        assert Group(others, owner, k') == Group(records, owner, k');
      }
      CountsAddUp(others, owner, keys - {k}, value);
      SumPick(keys, value, k);
      assert records == own + others;
    }
  }
}
