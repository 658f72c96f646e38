/** What the leak flood of heap-checker.cc is meant to compute: the objects that
    can be reached from a set of roots through words of memory. */
module Reachability {
  import opened AddressMaps
  import opened HeapProfiles

  const POINTER_SIZE: nat := 8

  datatype Placement = MustBeOnHeap | IgnoredOnHeap | MaybeLive | InGlobalData | ThreadData | ThreadRegisters

  /** A range of memory to look for pointers in. */
  datatype AllocObject = AllocObject(ptr: Key, size: nat, place: Placement)

  /** What stays fixed while the flood runs: the words of memory, where pointers
      may be stored, how far inside an object they may point, and the objects. */
  datatype World = World(memory: Key -> Key, alignment: nat, maxSize: nat, bytes: map<Key, nat>)

  /** The words that are read as pointers in a range. */
  ghost predicate Scanned(alignment: nat, start: Key, size: nat, w: Key) {
    alignment > 0 && w % alignment == 0 && start <= w && w + POINTER_SIZE <= start + size
  }

  ghost predicate HitsAt(g: World, start: Key, size: nat, w: Key, k: Key) {
    Scanned(g.alignment, start, size, w) && Resolves(g.bytes, g.maxSize, g.memory(w), k)
  }

  ghost predicate Hits(g: World, start: Key, size: nat, k: Key) {
    exists w: Key :: HitsAt(g, start, size, w, k)
  }

  ghost predicate PointsTo(g: World, a: Key, k: Key) {
    a in g.bytes && Hits(g, a, g.bytes[a], k)
  }

  ghost predicate RootOf(g: World, r: AllocObject, k: Key) {
    Hits(g, r.ptr, r.size, k) || (r.place.MustBeOnHeap? && r.ptr == k && k in g.bytes)
  }

  ghost predicate Rooted(g: World, roots: seq<AllocObject>, k: Key) {
    exists r | r in roots :: RootOf(g, r, k)
  }

  /** A chain of pointers from a root, through objects that are not in `avoid`. */
  ghost predicate Path(g: World, roots: seq<AllocObject>, avoid: set<Key>, p: seq<Key>) {
    && p != [] && Rooted(g, roots, p[0])
    && (forall i, j | 0 <= i && j == i + 1 < |p| :: PointsTo(g, p[i], p[j]))
    && (forall k | k in p :: k !in avoid)
  }

  ghost predicate Reachable(g: World, roots: seq<AllocObject>, avoid: set<Key>, k: Key) {
    exists p :: Path(g, roots, avoid, p) && p[|p| - 1] == k
  }

  lemma ReachRoot(g: World, roots: seq<AllocObject>, avoid: set<Key>, k: Key)
    requires Rooted(g, roots, k) && k !in avoid
    ensures Reachable(g, roots, avoid, k)
  {
    assert Path(g, roots, avoid, [k]) && [k][0] == k;
  }

  lemma ReachStep(g: World, roots: seq<AllocObject>, avoid: set<Key>, a: Key, k: Key)
    requires Reachable(g, roots, avoid, a) && PointsTo(g, a, k) && k !in avoid
    ensures Reachable(g, roots, avoid, k)
  {
    hide PointsTo, Rooted;
    var p :| Path(g, roots, avoid, p) && p[|p| - 1] == a;
    assert Path(g, roots, avoid, p + [k]);
  }

  /** A set that holds the targets of the roots, and with each object all that
      it points to, holds every reachable object. */
  lemma {:induction false} ReachableWithin(g: World, roots: seq<AllocObject>, avoid: set<Key>, s: set<Key>, p: seq<Key>)
    requires Path(g, roots, avoid, p)
    requires forall k: Key | Rooted(g, roots, k) && k !in avoid :: k in s
    requires forall a, k: Key | a in s && a !in avoid && PointsTo(g, a, k) && k !in avoid :: k in s
    ensures p[|p| - 1] in s
    decreases |p|
  {
    hide PointsTo, Rooted;
    if |p| > 1 {
      var q := p[..|p| - 1];
      assert Path(g, roots, avoid, q);
      ReachableWithin(g, roots, avoid, s, q);
      var i := |p| - 2;
      assert PointsTo(g, p[i], p[i + 1]);
      assert p[i] in p && p[i + 1] in p;
    } else {
      assert p[0] in p;
    }
  }

  // ----- the invariant of the flood

  /** Everything marked since the start is reachable, and the ranges still to be
      looked at are roots or objects marked since the start. */
  ghost predicate Justified(g: World, roots: seq<AllocObject>, live0: set<Key>, live: set<Key>, pending: seq<AllocObject>) {
    && live0 <= live
    && (forall k | k in live && k !in live0 :: Reachable(g, roots, live0, k))
    && (forall o | o in pending :: o in roots || FoundRange(g, live0, live, o))
  }

  ghost predicate FoundRange(g: World, live0: set<Key>, live: set<Key>, o: AllocObject) {
    o.ptr in live && o.ptr !in live0 && o.ptr in g.bytes && o.size == g.bytes[o.ptr] && o.place.IgnoredOnHeap?
  }

  /** Nothing is forgotten: a range that is no longer pending has only marked
      targets. */
  ghost predicate Covered(g: World, roots: seq<AllocObject>, live0: set<Key>, live: set<Key>, pending: seq<AllocObject>) {
    && (forall r, k: Key | r in roots && r !in pending && RootOf(g, r, k) :: k in live)
    && (forall a, k: Key | a in live && a !in live0 && PointsTo(g, a, k) :: k in live || Awaits(g, pending, a))
  }

  ghost predicate Awaits(g: World, pending: seq<AllocObject>, a: Key) {
    exists o :: o in pending && o.ptr == a && a in g.bytes && o.size == g.bytes[a]
  }

  ghost predicate Flooding(g: World, roots: seq<AllocObject>, live0: set<Key>, live: set<Key>, pending: seq<AllocObject>) {
    Justified(g, roots, live0, live, pending) && Covered(g, roots, live0, live, pending)
  }

  /** A root that is said to be an object of the heap has the size of that object. */
  ghost predicate Matching(bytes: map<Key, nat>, roots: seq<AllocObject>) {
    forall r | r in roots && r.place.MustBeOnHeap? && r.ptr in bytes :: r.size == bytes[r.ptr]
  }

  lemma FloodStart(g: World, roots: seq<AllocObject>, live0: set<Key>)
    ensures Flooding(g, roots, live0, live0, roots)
  {
  }

  /** The popped range names an object that must be live. */
  lemma FloodMust(g: World, roots: seq<AllocObject>, live0: set<Key>, live: set<Key>, pending: seq<AllocObject>, o: AllocObject)
    requires Flooding(g, roots, live0, live, pending) && Matching(g.bytes, roots)
    requires o in pending && o.place.MustBeOnHeap? && o.ptr in g.bytes && o.ptr !in live
    ensures Flooding(g, roots, live0, live + {o.ptr}, pending)
  {
    hide Reachable, PointsTo, Hits, Matching;
    assert RootOf(g, o, o.ptr);
    ReachRoot(g, roots, live0, o.ptr);
    assert Awaits(g, pending, o.ptr) by { assert o in roots; MatchingAt(g.bytes, roots, o); }
  }

  lemma MatchingAt(bytes: map<Key, nat>, roots: seq<AllocObject>, r: AllocObject)
    requires Matching(bytes, roots) && r in roots && r.place.MustBeOnHeap? && r.ptr in bytes
    ensures r.size == bytes[r.ptr]
  {
  }

  /** A word of a pending range leads to an object that was not marked. */
  lemma FloodFound(g: World, roots: seq<AllocObject>, live0: set<Key>, live: set<Key>, pending: seq<AllocObject>,
                   o: AllocObject, w: Key, k: Key, pending1: seq<AllocObject>)
    requires Flooding(g, roots, live0, live, pending) && o in pending
    requires HitsAt(g, o.ptr, o.size, w, k) && k in g.bytes && k !in live
    requires forall x :: x in pending1 <==> x in pending || x == AllocObject(k, g.bytes[k], IgnoredOnHeap)
    ensures Flooding(g, roots, live0, live + {k}, pending1)
  {
    hide Reachable, HitsAt;
    assert Hits(g, o.ptr, o.size, k);
    if o in roots {
      assert RootOf(g, o, k);
      ReachRoot(g, roots, live0, k);
    } else {
      ReachStep(g, roots, live0, o.ptr, k);
    }
    var new_ := AllocObject(k, g.bytes[k], IgnoredOnHeap);
    assert new_ in pending1 && Awaits(g, pending1, k);
    forall a, j: Key | a in live + {k} && a !in live0 && PointsTo(g, a, j)
      ensures j in live + {k} || Awaits(g, pending1, a)
    {
      if a != k && j !in live { assert Awaits(g, pending, a); }
    }
  }

  /** A range whose targets are all marked need not be kept. */
  lemma FloodDone(g: World, roots: seq<AllocObject>, live0: set<Key>, live: set<Key>, pending: seq<AllocObject>,
                  o: AllocObject, pending1: seq<AllocObject>)
    requires Flooding(g, roots, live0, live, pending)
    requires forall x :: x in pending <==> x in pending1 || x == o
    requires forall k: Key | RootOf(g, o, k) :: k in live
    ensures Flooding(g, roots, live0, live, pending1)
  {
    hide Reachable, Hits;
    forall a, k: Key | a in live && a !in live0 && PointsTo(g, a, k)
      ensures k in live || Awaits(g, pending1, a)
    {
      if k !in live {
        var x :| x in pending && x.ptr == a && a in g.bytes && x.size == g.bytes[a];
        assert x == o ==> RootOf(g, o, k);
      }
    }
  }

  lemma FloodEnd(g: World, roots: seq<AllocObject>, live0: set<Key>, live: set<Key>)
    requires Flooding(g, roots, live0, live, [])
    ensures live0 <= live && forall k: Key :: k in live <==> k in live0 || Reachable(g, roots, live0, k)
  {
    hide PointsTo, RootOf;
    forall k: Key | Reachable(g, roots, live0, k) ensures k in live {
      var p :| Path(g, roots, live0, p) && p[|p| - 1] == k;
      ReachableWithin(g, roots, live0, live, p);
    }
  }

  // ----- several floods in a row

  /** Everything that a live object points to is live. */
  ghost predicate Closed(g: World, live: set<Key>) {
    forall a, k: Key | a in live && PointsTo(g, a, k) :: k in live
  }

  /** From a closed set it makes no difference to walk through live objects. */
  lemma ClosedReach(g: World, roots: seq<AllocObject>, live: set<Key>, k: Key)
    requires Closed(g, live)
    ensures k in live || Reachable(g, roots, live, k) <==> k in live || Reachable(g, roots, {}, k)
  {
    hide PointsTo, Rooted;
    if k !in live && Reachable(g, roots, {}, k) {
      var p :| Path(g, roots, {}, p) && p[|p| - 1] == k;
      OutsidePath(g, live, p);
      assert Path(g, roots, live, p);
    }
    if Reachable(g, roots, live, k) {
      var p :| Path(g, roots, live, p) && p[|p| - 1] == k;
      assert Path(g, roots, {}, p);
    }
  }

  /** A path that ends outside a closed set never was inside. */
  lemma {:induction false} OutsidePath(g: World, live: set<Key>, p: seq<Key>)
    requires Closed(g, live) && p != [] && p[|p| - 1] !in live
    requires forall i, j | 0 <= i && j == i + 1 < |p| :: PointsTo(g, p[i], p[j])
    ensures forall k | k in p :: k !in live
    decreases |p|
  {
    hide PointsTo;
    if |p| > 1 {
      var i := |p| - 2;
      assert PointsTo(g, p[i], p[i + 1]);
      OutsidePath(g, live, p[..|p| - 1]);
      assert forall k | k in p :: k in p[..|p| - 1] || k == p[|p| - 1];
    }
  }

  /** The objects that a set of roots makes live. */
  ghost predicate LiveFrom(g: World, roots: seq<AllocObject>, live: set<Key>) {
    forall k: Key :: k in live <==> Reachable(g, roots, {}, k)
  }

  lemma LiveFromClosed(g: World, roots: seq<AllocObject>, live: set<Key>)
    requires LiveFrom(g, roots, live)
    ensures Closed(g, live)
  {
    hide PointsTo, Reachable;
    forall a, k: Key | a in live && PointsTo(g, a, k) ensures k in live {
      ReachStep(g, roots, {}, a, k);
    }
  }

  lemma LiveFromNothing(g: World)
    ensures LiveFrom(g, [], {})
  {
    forall k: Key ensures !Reachable(g, [], {}, k) {
      assert forall p | p != [] :: !Rooted(g, [], p[0]);
    }
  }

  /** A flood from `roots` after one from `roots0` is a flood from both. */
  lemma FloodAfter(g: World, roots0: seq<AllocObject>, roots: seq<AllocObject>, live0: set<Key>, live: set<Key>)
    requires LiveFrom(g, roots0, live0)
    requires forall k: Key :: k in live <==> k in live0 || Reachable(g, roots, live0, k)
    ensures LiveFrom(g, roots0 + roots, live)
  {
    hide PointsTo, RootOf, Reachable;
    LiveFromClosed(g, roots0, live0);
    forall k: Key ensures k in live <==> Reachable(g, roots0 + roots, {}, k) {
      ClosedReach(g, roots, live0, k);
      ReachUnion(g, roots0, roots, k);
    }
  }

  lemma ReachUnion(g: World, roots0: seq<AllocObject>, roots: seq<AllocObject>, k: Key)
    ensures Reachable(g, roots0 + roots, {}, k) <==> Reachable(g, roots0, {}, k) || Reachable(g, roots, {}, k)
  {
    hide PointsTo, RootOf;
    if Reachable(g, roots0 + roots, {}, k) {
      var p :| Path(g, roots0 + roots, {}, p) && p[|p| - 1] == k;
      var r :| r in roots0 + roots && RootOf(g, r, p[0]);
      assert Path(g, roots0, {}, p) || Path(g, roots, {}, p);
    }
    if Reachable(g, roots0, {}, k) {
      var p :| Path(g, roots0, {}, p) && p[|p| - 1] == k;
      assert Path(g, roots0 + roots, {}, p);
    }
    if Reachable(g, roots, {}, k) {
      var p :| Path(g, roots, {}, p) && p[|p| - 1] == k;
      assert Path(g, roots0 + roots, {}, p);
    }
  }
}
