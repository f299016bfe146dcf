/**
 The search for a sensitive text in a value that may share objects or contain
 cycles: a depth-first visit with one set of seen objects for the whole search.
 */
module SensitiveSearch {
  type ObjectId = nat

  /** A value as the search sees it; every other primitive (null included) is `Other`. */
  datatype Value = Text(text: string) | Object(id: ObjectId) | Other

  /** The values of each object's own enumerable properties, in property order. */
  type Heap = map<ObjectId, seq<Value>>

  function Children(heap: Heap, id: ObjectId): seq<Value> {
    if id in heap then heap[id] else []
  }

  predicate OccursAt(text: string, part: string, i: int) {
    0 <= i <= |text| - |part| && text[i..i + |part|] == part
  }

  predicate Includes(text: string, part: string) {
    exists i :: 0 <= i <= |text| - |part| && OccursAt(text, part, i)
  }

  predicate Hit(v: Value, part: string) {
    v.Text? && Includes(v.text, part)
  }

  /** `path` leads from `v`, one property value at a time, to `w`. */
  ghost predicate Leads(heap: Heap, v: Value, path: seq<Value>, w: Value)
    decreases |path|
  {
    if |path| == 0 then v == w
    else v.Object? && path[0] in Children(heap, v.id) && Leads(heap, path[0], path[1..], w)
  }

  /** Some string reachable through object values contains the text. */
  ghost predicate Reaches(heap: Heap, v: Value, part: string) {
    exists path, w :: Leads(heap, v, path, w) && Hit(w, part)
  }

  /** A value the search is done with: no hit, and if an object then one already seen. */
  ghost predicate Cleared(v: Value, part: string, seen: set<ObjectId>) {
    !Hit(v, part) && (v.Object? ==> v.id in seen)
  }

  /** Every seen object outside the stack of open visits has only cleared children. */
  ghost predicate Explored(heap: Heap, part: string, seen: set<ObjectId>, open: set<ObjectId>) {
    forall id, v :: id in seen && id !in open && v in Children(heap, id) ==> Cleared(v, part, seen)
  }

  lemma OpenOneMore(heap: Heap, part: string, seen: set<ObjectId>, open: set<ObjectId>, id: ObjectId)
    requires Explored(heap, part, seen, open)
    ensures Explored(heap, part, seen + {id}, open + {id})
    ensures Children(heap, id) == [] ==> Explored(heap, part, seen + {id}, open)
  {
    forall x, v | x in seen && x !in open && v in Children(heap, x) ensures Cleared(v, part, seen + {id}) {
      assert Cleared(v, part, seen);
    }
  }

  class SeenSet {
    var ids: set<ObjectId>

    constructor ()
      ensures ids == {}
    {
      ids := {};
    }
  }

  method VisitSensitiveValue(heap: Heap, value: Value, part: string, seen: SeenSet, ghost open: set<ObjectId>)
    returns (found: bool)
    requires Explored(heap, part, seen.ids, open)
    modifies seen
    ensures old(seen.ids) <= seen.ids
    ensures found ==> Reaches(heap, value, part)
    ensures !found ==> Explored(heap, part, seen.ids, open) && Cleared(value, part, seen.ids)
    decreases heap.Keys - seen.ids, 1
  {
    if value.Text? {
      found := Includes(value.text, part);
      if found {
        assert Leads(heap, value, [], value) && Hit(value, part);
      }
      return;
    }
    if value.Other? || value.id in seen.ids {
      return false;
    }
    OpenOneMore(heap, part, seen.ids, open, value.id);
    seen.ids := seen.ids + {value.id};
    if value.id !in heap {
      return false;
    }
    found := VisitAny(heap, value.id, part, seen, open);
  }

  /** The `some` over an object's values, which stops at the first one that is found. */
  method VisitAny(heap: Heap, id: ObjectId, part: string, seen: SeenSet, ghost open: set<ObjectId>)
    returns (found: bool)
    requires id in heap && id in seen.ids && Explored(heap, part, seen.ids, open + {id})
    modifies seen
    ensures old(seen.ids) <= seen.ids
    ensures found ==> Reaches(heap, Object(id), part)
    ensures !found ==> Explored(heap, part, seen.ids, open)
    decreases heap.Keys - seen.ids, 2
  {
    var items := heap[id];
    for i := 0 to |items|
      invariant old(seen.ids) <= seen.ids
      invariant Explored(heap, part, seen.ids, open + {id})
      invariant forall k :: 0 <= k < i ==> Cleared(items[k], part, seen.ids)
    {
      found := VisitSensitiveValue(heap, items[i], part, seen, open + {id});
      if found {
        ghost var path, w :| Leads(heap, items[i], path, w) && Hit(w, part);
        assert ([items[i]] + path)[1..] == path;
        assert Leads(heap, Object(id), [items[i]] + path, w);
        return true;
      }
    }
    return false;
  }

  /** With nothing open, an explored set containing the value rules out every path to a hit. */
  lemma {:induction false} ExploredIsClosed(heap: Heap, part: string, seen: set<ObjectId>, v: Value,
                                            path: seq<Value>, w: Value)
    requires Explored(heap, part, seen, {}) && Cleared(v, part, seen) && Leads(heap, v, path, w)
    ensures !Hit(w, part)
    decreases |path|
  {
    if |path| > 0 {
      ExploredIsClosed(heap, part, seen, path[0], path[1..], w);
    }
  }

  /**
   The search terminates on every finite heap and, for a non-empty text, is true
   exactly when a reachable string contains it. An empty text is never found.
   */
  method ContainsSensitiveText(heap: Heap, value: Value, part: string) returns (found: bool)
    ensures found <==> part != "" && Reaches(heap, value, part)
  {
    if |part| == 0 {
      return false;
    }
    var seen := new SeenSet();
    found := VisitSensitiveValue(heap, value, part, seen, {});
    if !found {
      forall path, w | Leads(heap, value, path, w) ensures !Hit(w, part) {
        ExploredIsClosed(heap, part, seen.ids, value, path, w);
      }
    }
  }
}
