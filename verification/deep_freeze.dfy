/**
 * `deepFreeze` of src/modules/deepFreeze.ts and its line-for-line copy
 * src/modules/freeze.ts.
 *
 * The object graph is a heap mapping each object to the values of its own
 * enumerable properties, in `for...in` order (inherited properties are
 * already removed, as the `hasOwnProperty` filter does).  `Object.freeze`
 * only sets a flag and never changes edges, so the model returns the order
 * in which objects are frozen (the DFS trace, whose elements form the
 * `memo` set) and the resulting set of frozen objects.
 */
module DeepFreeze {

  type ObjId = nat

  /**
   * A JavaScript value: `typeof v === 'object' && v !== null` holds exactly
   * for `Ref`.  Functions have `typeof` "function" and count as `Primitive`.
   */
  datatype Value = Primitive | Null | Ref(id: ObjId)

  /** Own enumerable property values per object. */
  type Heap = map<ObjId, seq<Value>>

  /** Every reference stored in an object points to an object of the heap. */
  predicate Closed(heap: Heap) {
    forall o, i :: o in heap && 0 <= i < |heap[o]| && heap[o][i].Ref? ==> heap[o][i].id in heap
  }

  /** Every object referenced by one of `props` is in `s`. */
  predicate RefsIn(props: seq<Value>, s: set<ObjId>) {
    forall i :: 0 <= i < |props| && props[i].Ref? ==> props[i].id in s
  }

  /** `s` is closed under the own-property edges of its members. */
  predicate ClosedSet(heap: Heap, s: set<ObjId>) {
    && s <= heap.Keys
    && forall x :: x in s ==> RefsIn(heap[x], s)
  }

  function Elems(t: seq<ObjId>): set<ObjId> {
    set x | x in t
  }

  predicate Distinct(t: seq<ObjId>) {
    forall i, j :: 0 <= i < j < |t| ==> t[i] != t[j]
  }

  /**
   * The inner `dfs` (deepFreeze.ts:45-64): `trace` is the memo set in the
   * order objects were added and frozen; the result extends it.
   */
  function Visit(heap: Heap, trace: seq<ObjId>, current: ObjId): (r: seq<ObjId>)
    requires Closed(heap) && current in heap && Elems(trace) <= heap.Keys
    ensures |trace| <= |r| && r[..|trace|] == trace
    ensures Elems(r) <= heap.Keys && current in Elems(r)
    ensures Distinct(trace) ==> Distinct(r)
    // Every object this call froze had all of its own object-valued properties visited.
    ensures forall x :: x in Elems(r) - Elems(trace) ==> RefsIn(heap[x], Elems(r))
    decreases |heap.Keys - Elems(trace)|, 0
  {
    if current in trace then trace
    else
      var t := trace + [current];
      assert Elems(t) == Elems(trace) + {current};
      assert heap.Keys - Elems(t) < heap.Keys - Elems(trace);
      var r := VisitProps(heap, t, heap[current]);
      assert r[..|trace|] == r[..|t|][..|trace|];
      assert r[|trace|] == current;
      r
  }

  /** The `for...in` loop of `dfs` over the property values of one object. */
  function VisitProps(heap: Heap, trace: seq<ObjId>, props: seq<Value>): (r: seq<ObjId>)
    requires Closed(heap) && Elems(trace) <= heap.Keys && RefsIn(props, heap.Keys)
    ensures |trace| <= |r| && r[..|trace|] == trace
    ensures Elems(r) <= heap.Keys
    ensures Distinct(trace) ==> Distinct(r)
    ensures RefsIn(props, Elems(r))
    ensures forall x :: x in Elems(r) - Elems(trace) ==> RefsIn(heap[x], Elems(r))
    decreases |heap.Keys - Elems(trace)|, 1, |props|
  {
    if props == [] then trace
    else
      var t := if props[0].Ref? then Visit(heap, trace, props[0].id) else trace;
      PrefixElems(trace, t);
      ShrinkingMeasure(heap.Keys, Elems(trace), Elems(t));
      var r := VisitProps(heap, t, props[1..]);
      PrefixElems(t, r);
      assert r[..|trace|] == r[..|t|][..|trace|];
      assert forall i :: 1 <= i < |props| ==> props[i] == props[1..][i - 1];
      r
  }

  lemma PrefixElems(a: seq<ObjId>, b: seq<ObjId>)
    requires |a| <= |b| && b[..|a|] == a
    ensures Elems(a) <= Elems(b)
  {
    forall x | x in Elems(a) ensures x in Elems(b) {
      var k :| 0 <= k < |a| && a[k] == x;
      assert b[k] == x;
    }
  }

  lemma ShrinkingMeasure(keys: set<ObjId>, a: set<ObjId>, b: set<ObjId>)
    requires a <= b
    ensures |keys - b| <= |keys - a|
  {
    var rest := (keys - a) - (keys - b);
    assert keys - a == (keys - b) + rest;
    assert (keys - b) !! rest;
  }

  /** What `deepFreeze` returns, together with the objects frozen afterwards. */
  datatype Frozen = Frozen(result: Value, trace: seq<ObjId>, frozen: set<ObjId>)

  /** `deepFreeze(obj)`: `frozen` are the objects frozen before the call. */
  function DeepFreeze(heap: Heap, frozen: set<ObjId>, v: Value): (r: Frozen)
    requires Closed(heap) && (v.Ref? ==> v.id in heap)
    // The returned reference is the argument (deepFreeze.ts:66-67).
    ensures r.result == v
    // Non-object and null input freezes nothing (deepFreeze.ts:31).
    ensures !v.Ref? ==> r.frozen == frozen && r.trace == []
    ensures v.Ref? ==> v.id in r.frozen
    // Each object is frozen at most once: the memo set guards re-entry.
    ensures Distinct(r.trace)
    ensures r.frozen == frozen + Elems(r.trace)
    // Every object frozen by the call has all its object-valued own properties frozen too.
    ensures ClosedSet(heap, Elems(r.trace))
  {
    if !v.Ref? then Frozen(v, [], frozen)
    else
      var t := Visit(heap, [], v.id);
      Frozen(v, t, frozen + Elems(t))
  }

  /** `p` is a chain of own-property references starting at `p[0]`. */
  ghost predicate IsPath(heap: Heap, p: seq<ObjId>) {
    && |p| >= 1
    && (forall i :: 0 <= i < |p| ==> p[i] in heap)
    && forall i :: 0 <= i < |p| - 1 ==> Ref(p[i + 1]) in heap[p[i]]
  }

  /** `x` can be reached from `root` by following own properties. */
  ghost predicate Reachable(heap: Heap, root: ObjId, x: ObjId) {
    exists p :: IsPath(heap, p) && p[0] == root && p[|p| - 1] == x
  }

  /** The objects of the heap reachable from `root`. */
  ghost function ReachableSet(heap: Heap, root: ObjId): set<ObjId> {
    set x | x in heap && Reachable(heap, root, x)
  }

  /** A set closed under own-property edges holds every object along a path that starts in it. */
  lemma {:induction false} ClosedSetHoldsPath(heap: Heap, s: set<ObjId>, p: seq<ObjId>)
    requires ClosedSet(heap, s) && IsPath(heap, p) && p[0] in s
    ensures forall i :: 0 <= i < |p| ==> p[i] in s
    decreases |p|
  {
    if |p| > 1 {
      var q := p[..|p| - 1];
      assert IsPath(heap, q);
      ClosedSetHoldsPath(heap, s, q);
      var last := p[|p| - 2];
      assert last in s;
      assert Ref(p[|p| - 1]) in heap[last];
      var k :| 0 <= k < |heap[last]| && heap[last][k] == Ref(p[|p| - 1]);
      assert RefsIn(heap[last], s);
      assert forall i :: 0 <= i < |p| - 1 ==> p[i] == q[i];
    }
  }

  /**
   * The visit stays inside every closed set containing its start: it never
   * freezes an object outside the part of the graph reachable from it.
   */
  lemma {:induction false} VisitWithin(heap: Heap, trace: seq<ObjId>, current: ObjId, s: set<ObjId>)
    requires Closed(heap) && current in heap && Elems(trace) <= heap.Keys
    requires ClosedSet(heap, s) && current in s
    ensures Elems(Visit(heap, trace, current)) <= Elems(trace) + s
    decreases |heap.Keys - Elems(trace)|, 0
  {
    if current !in trace {
      var t := trace + [current];
      assert Elems(t) == Elems(trace) + {current};
      assert heap.Keys - Elems(t) < heap.Keys - Elems(trace);
      VisitPropsWithin(heap, t, heap[current], s);
    }
  }

  lemma {:induction false} VisitPropsWithin(heap: Heap, trace: seq<ObjId>, props: seq<Value>, s: set<ObjId>)
    requires Closed(heap) && Elems(trace) <= heap.Keys && RefsIn(props, heap.Keys)
    requires ClosedSet(heap, s) && RefsIn(props, s)
    ensures Elems(VisitProps(heap, trace, props)) <= Elems(trace) + s
    decreases |heap.Keys - Elems(trace)|, 1, |props|
  {
    if props != [] {
      var t := if props[0].Ref? then Visit(heap, trace, props[0].id) else trace;
      if props[0].Ref? {
        VisitWithin(heap, trace, props[0].id, s);
      }
      PrefixElems(trace, t);
      ShrinkingMeasure(heap.Keys, Elems(trace), Elems(t));
      assert forall i :: 1 <= i < |props| ==> props[i] == props[1..][i - 1];
      VisitPropsWithin(heap, t, props[1..], s);
    }
  }

  /** The objects reachable from `root` form a closed set. */
  lemma ReachableSetClosed(heap: Heap, root: ObjId)
    requires Closed(heap) && root in heap
    ensures ClosedSet(heap, ReachableSet(heap, root))
    ensures root in ReachableSet(heap, root)
  {
    var s := ReachableSet(heap, root);
    assert IsPath(heap, [root]);
    forall x | x in s ensures RefsIn(heap[x], s) {
      var p :| IsPath(heap, p) && p[0] == root && p[|p| - 1] == x;
      forall i | 0 <= i < |heap[x]| && heap[x][i].Ref? ensures heap[x][i].id in s {
        var c := heap[x][i].id;
        var q := p + [c];
        assert forall k :: 0 <= k < |p| ==> q[k] == p[k];
        assert Ref(q[|q| - 1]) in heap[q[|q| - 2]];
        assert IsPath(heap, q);
      }
    }
  }

  /**
   * deepFreeze freezes exactly the objects reachable from its argument
   * through own object-valued properties, on top of those already frozen;
   * cycles are harmless because every object is frozen once.
   */
  lemma FreezesExactlyReachable(heap: Heap, frozen: set<ObjId>, v: Value)
    requires Closed(heap) && (v.Ref? ==> v.id in heap)
    ensures forall x :: x in DeepFreeze(heap, frozen, v).frozen <==>
                        x in frozen || (v.Ref? && x in heap && Reachable(heap, v.id, x))
  {
    if v.Ref? {
      var r := DeepFreeze(heap, frozen, v);
      var t := Visit(heap, [], v.id);
      var reach := ReachableSet(heap, v.id);
      ReachableSetClosed(heap, v.id);
      VisitWithin(heap, [], v.id, reach);
      assert Elems([]) == {};
      forall x | x in heap && Reachable(heap, v.id, x) ensures x in Elems(t) {
        var p :| IsPath(heap, p) && p[0] == v.id && p[|p| - 1] == x;
        ClosedSetHoldsPath(heap, Elems(t), p);
      }
    }
  }
}
