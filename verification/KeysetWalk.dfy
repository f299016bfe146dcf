/**
 Keyset paging while the table changes: each query returns the least matching keys
 above the last one returned. `views` are the matching keys at the time of each
 query; nothing relates one view to the next, so writers may do anything between.
 */
module KeysetWalk {
  import opened Common
  import opened Ordering

  /** The `limit` least keys, in order. */
  function Page<K(!new)>(less: (K, K) -> bool, keys: set<K>, limit: nat): (page: seq<K>)
    requires StrictOrder(less)
    ensures Increasing(less, page) && |page| <= limit && Elements(page) <= keys
    ensures forall k, p :: k in keys && k !in page && p in page ==> less(p, k)
    ensures |page| < limit ==> Elements(page) == keys
    decreases limit
  {
    if keys == {} || limit == 0 then []
    else
      LeastExists(less, keys);
      var m :| IsLeast(less, keys, m);
      var rest := Page(less, keys - {m}, limit - 1);
      assert forall p :: p in rest ==> p in Elements(rest) && less(m, p);
      assert Elements([m] + rest) == {m} + Elements(rest);
      [m] + rest
  }

  predicate Above<K(==)>(less: (K, K) -> bool, after: Option<K>, k: K) {
    after.Some? ==> less(after.value, k)
  }

  function Query<K(!new)>(less: (K, K) -> bool, view: set<K>, after: Option<K>, limit: nat): seq<K>
    requires StrictOrder(less)
  {
    Page(less, (set k | k in view && Above(less, after, k)), limit)
  }

  function Next<K>(after: Option<K>, page: seq<K>): Option<K> {
    if |page| == 0 then after else Some(page[|page| - 1])
  }

  /** All the keys a client receives that follows the last key of each page. */
  function Walk<K(!new)>(less: (K, K) -> bool, after: Option<K>, views: seq<set<K>>, limits: seq<nat>): seq<K>
    requires StrictOrder(less) && |views| == |limits|
    decreases |views|
  {
    if |views| == 0 then []
    else
      var page := Query(less, views[0], after, limits[0]);
      page + Walk(less, Next(after, page), views[1..], limits[1..])
  }

  /** The client stopped because its last page was not full. */
  predicate Finished<K(!new)>(less: (K, K) -> bool, after: Option<K>, views: seq<set<K>>, limits: seq<nat>)
    requires StrictOrder(less) && |views| == |limits|
    decreases |views|
  {
    && |views| > 0
    && var page := Query(less, views[0], after, limits[0]);
       if |views| == 1 then |page| < limits[0]
       else Finished(less, Next(after, page), views[1..], limits[1..])
  }

  lemma {:induction false} QueryAbove<K(!new)>(less: (K, K) -> bool, view: set<K>, after: Option<K>, limit: nat)
    requires StrictOrder(less)
    ensures forall k :: k in Query(less, view, after, limit) ==> k in view && Above(less, after, k)
    ensures forall k :: k in Query(less, view, after, limit) ==>
              k == Next(after, Query(less, view, after, limit)).value
              || less(k, Next(after, Query(less, view, after, limit)).value)
  {
    var page := Query(less, view, after, limit);
    forall k | k in page ensures k in view && Above(less, after, k) { assert k in Elements(page); }
  }

  /** The keys received, page after page, are strictly increasing and above the start. */
  lemma {:induction false} WalkIncreasing<K(!new)>(less: (K, K) -> bool, after: Option<K>, views: seq<set<K>>,
                                                   limits: seq<nat>)
    requires StrictOrder(less) && |views| == |limits|
    ensures Increasing(less, Walk(less, after, views, limits))
    ensures forall k :: k in Walk(less, after, views, limits) ==> Above(less, after, k)
    decreases |views|
  {
    if |views| > 0 {
      var page := Query(less, views[0], after, limits[0]);
      var next := Next(after, page);
      var rest := Walk(less, next, views[1..], limits[1..]);
      QueryAbove(less, views[0], after, limits[0]);
      WalkIncreasing(less, next, views[1..], limits[1..]);
      var all := page + rest;
      forall i, j | 0 <= i < j < |all| ensures less(all[i], all[j]) {
        if i < |page| <= j {
          assert page[i] in page && rest[j - |page|] in rest;
          assert Above(less, next, all[j]);
        }
      }
      forall k | k in all ensures Above(less, after, k) {
        if k in rest { assert Above(less, next, k); }
      }
    }
  }

  /** The page received from query `i`. */
  function PageAt<K(!new)>(less: (K, K) -> bool, after: Option<K>, views: seq<set<K>>, limits: seq<nat>, i: nat): seq<K>
    requires StrictOrder(less) && |views| == |limits| && i < |views|
    decreases i
  {
    var page := Query(less, views[0], after, limits[0]);
    if i == 0 then page else PageAt(less, Next(after, page), views[1..], limits[1..], i - 1)
  }

  /** Every key received came with some page, and was in the table when that page was read. */
  lemma {:induction false} WalkSound<K(!new)>(less: (K, K) -> bool, after: Option<K>, views: seq<set<K>>,
                                              limits: seq<nat>, k: K)
    requires StrictOrder(less) && |views| == |limits| && k in Walk(less, after, views, limits)
    ensures exists i :: 0 <= i < |views| && k in PageAt(less, after, views, limits, i) && k in views[i]
    decreases |views|
  {
    hide StrictOrder, Query;
    var page := Query(less, views[0], after, limits[0]);
    QueryAbove(less, views[0], after, limits[0]);
    if k in page {
      assert k in PageAt(less, after, views, limits, 0) && k in views[0];
    } else {
      WalkSound(less, Next(after, page), views[1..], limits[1..], k);
      var i :| 0 <= i < |views[1..]| && k in PageAt(less, Next(after, page), views[1..], limits[1..], i)
               && k in views[1..][i];
      assert k in PageAt(less, after, views, limits, i + 1) && k in views[i + 1];
    }
  }

  /** A key present throughout a finished walk is received. */
  lemma {:induction false} WalkComplete<K(!new)>(less: (K, K) -> bool, after: Option<K>, views: seq<set<K>>,
                                                 limits: seq<nat>, k: K)
    requires StrictOrder(less) && |views| == |limits| && Finished(less, after, views, limits)
    requires Above(less, after, k) && forall i :: 0 <= i < |views| ==> k in views[i]
    ensures k in Walk(less, after, views, limits)
    decreases |views|
  {
    var page := Query(less, views[0], after, limits[0]);
    var keys := set x | x in views[0] && Above(less, after, x);
    assert k in views[0] && k in keys;
    if k !in page {
      assert |views| > 1 by {
        if |page| < limits[0] { assert k in Elements(page); }
      }
      var next := Next(after, page);
      assert Above(less, next, k) by {
        if |page| > 0 { assert page[|page| - 1] in page; }
      }
      WalkComplete(less, next, views[1..], limits[1..], k);
    }
  }

  /** Such a key is received exactly once. */
  lemma {:induction false} WalkExactlyOnce<K(!new)>(less: (K, K) -> bool, after: Option<K>, views: seq<set<K>>,
                                                    limits: seq<nat>, k: K)
    requires StrictOrder(less) && |views| == |limits| && Finished(less, after, views, limits)
    requires Above(less, after, k) && forall i :: 0 <= i < |views| ==> k in views[i]
    ensures multiset(Walk(less, after, views, limits))[k] == 1
  {
    WalkComplete(less, after, views, limits, k);
    WalkIncreasing(less, after, views, limits);
    IncreasingOnce(less, Walk(less, after, views, limits), k);
  }
}
