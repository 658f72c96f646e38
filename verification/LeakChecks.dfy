/** The leak check of heap-checker.cc: allocation hooks, and a flood with an
    explicit stack that marks what can be reached. */
module LeakChecks {
  import opened Arithmetic
  import opened Sequences
  import opened LinkedLists
  import opened AddressMaps
  import opened HeapProfiles
  import opened Reachability

  const MAX_ADDRESS: nat := 0xFFFF_FFFF_FFFF_FFFF

  ghost function Live(objects: map<Key, AllocValue>): set<Key> {
    set k | k in objects && objects[k].live
  }

  ghost function WithLive(objects: map<Key, AllocValue>, live: set<Key>): map<Key, AllocValue> {
    map k | k in objects :: objects[k].(live := k in live)
  }

  lemma WithLiveSelf(objects: map<Key, AllocValue>)
    ensures WithLive(objects, Live(objects)) == objects && Live(objects) <= objects.Keys
  {
  }

  lemma WithLiveMarked(objects: map<Key, AllocValue>, live: set<Key>, k: Key)
    requires k in objects
    ensures Marked(WithLive(objects, live), k) == WithLive(objects, live + {k})
    ensures k in WithLive(objects, live) && (WithLive(objects, live)[k].live <==> k in live)
    ensures k in live ==> WithLive(objects, live + {k}) == WithLive(objects, live)
  {
  }

  lemma WithLiveExtents(objects: map<Key, AllocValue>, live: set<Key>)
    ensures Extents(WithLive(objects, live)) == Extents(objects) && WithLive(objects, live).Keys == objects.Keys
    ensures Extents(objects).Keys == objects.Keys
  {
  }

  lemma WithLiveLive(objects: map<Key, AllocValue>, live: set<Key>)
    requires live <= objects.Keys
    ensures Live(WithLive(objects, live)) == live
    ensures forall s :: WithLive(WithLive(objects, live), s) == WithLive(objects, s)
  {
    forall s ensures WithLive(WithLive(objects, live), s) == WithLive(objects, s) { }
  }

  /** No recorded object has a byte, or its end, outside of the bounds. */
  ghost predicate Bounded(bytes: map<Key, nat>, lowest: nat, highest: nat) {
    forall k | k in bytes :: lowest <= k && k + bytes[k] <= highest
  }

  /** The cheap comparison with the bounds rejects no pointer that resolves. */
  lemma BoundsSuffice(bytes: map<Key, nat>, lowest: nat, highest: nat, maxSize: nat, addr: Key, k: Key)
    requires Bounded(bytes, lowest, highest) && Resolves(bytes, maxSize, addr, k)
    ensures lowest <= addr <= highest
  {
  }

  /** A new allocation widens the bounds just enough. */
  lemma BoundsWiden(bytes: map<Key, nat>, lowest: nat, highest: nat, ptr: Key, size: nat)
    requires Bounded(bytes, lowest, highest)
    ensures Bounded(bytes[ptr := size], if ptr < lowest then ptr else lowest, if ptr + size > highest then ptr + size else highest)
  {
  }

  lemma RecordedExtents(objects: map<Key, AllocValue>, ptr: Key, v: AllocValue)
    ensures Extents(objects[ptr := v]) == Extents(objects)[ptr := v.bytes]
  {
  }

  lemma FreedExtents(objects: map<Key, AllocValue>, ptr: Key, lowest: nat, highest: nat)
    requires Bounded(Extents(objects), lowest, highest)
    ensures Bounded(Extents(objects - {ptr}), lowest, highest)
  {
    assert forall k | k in Extents(objects - {ptr}) :: k in Extents(objects) && Extents(objects - {ptr})[k] == Extents(objects)[k];
  }

  lemma MoreMarked(live0: set<Key>, live1: set<Key>, live: set<Key>)
    requires live0 <= live1 <= live
    ensures |live - live0| == |live1 - live0| + |live - live1|
  {
    assert live - live0 == (live1 - live0) + (live - live1);
  }

  class LeakChecker {
    const profile: HeapProfileTable
    const memory: Key -> Key          // the word at an address, while threads are stopped
    var alignment: nat                // pointer_source_alignment
    var maxHeapObjectSize: nat
    var minHeapAddress: nat
    var maxHeapAddress: nat
    var liveObjects: seq<AllocObject> // a stack; the last entry is on top
    var liveObjectsTotal: nat

    ghost predicate Valid()
      reads this, profile, profile.addressMap
    {
      && profile.Valid() && alignment > 0
      && Bounded(Extents(profile.Objects()), minHeapAddress, maxHeapAddress)
    }

    ghost function Objects(): map<Key, AllocValue>
      reads this, profile, profile.addressMap
      requires profile.Valid()
    {
      profile.Objects()
    }

    ghost function Frozen(): World
      reads this, profile, profile.addressMap
      requires profile.Valid()
    {
      World(memory, alignment, maxHeapObjectSize, Extents(profile.Objects()))
    }

    constructor (memory: Key -> Key, alignment: nat)
      requires alignment > 0
      ensures Valid() && fresh(profile) && fresh(profile.addressMap) && Objects() == map[] && liveObjects == []
      ensures this.memory == memory && this.alignment == alignment && maxHeapObjectSize == 0
    {
      profile := new HeapProfileTable();
      this.memory, this.alignment := memory, alignment;
      maxHeapObjectSize, minHeapAddress, maxHeapAddress, liveObjects, liveObjectsTotal := 0, MAX_ADDRESS, 0, [], 0;
    }

    /** Records an allocation; the bounds are kept up even while checking is off. */
    method NewHook(ptr: Key, size: nat, ignore: bool, on: bool)
      requires Valid()
      modifies `maxHeapObjectSize, `minHeapAddress, `maxHeapAddress, profile.addressMap
      ensures Valid()
      ensures Objects() == if ptr != NULL && on then old(Objects())[ptr := AllocValue(size, false, ignore)] else old(Objects())
      ensures (forall k | k in old(Objects()) :: old(Objects())[k].bytes <= old(maxHeapObjectSize)) ==>
                forall k | k in Objects() :: Objects()[k].bytes <= maxHeapObjectSize
    {
      hide HeapProfileTable.Valid, HeapProfileTable.Objects, Bounded, Extents;
      if ptr != NULL {
        ghost var bytes: map<Key, nat> := Extents(Objects());
        BoundsWiden(bytes, minHeapAddress, maxHeapAddress, ptr, size);
        BoundsLoosen(bytes, minHeapAddress, maxHeapAddress, ptr, size);
        if size > maxHeapObjectSize {
          maxHeapObjectSize := size;
        }
        if ptr < minHeapAddress {
          minHeapAddress := ptr;
        }
        if ptr + size > maxHeapAddress {
          maxHeapAddress := ptr + size;
        }
        if on {
          ghost var v := AllocValue(size, false, false);
          RecordedExtents(Objects(), ptr, v);
          RecordedExtents(Objects()[ptr := v], ptr, AllocValue(size, false, true));
          assert Objects()[ptr := v][ptr := AllocValue(size, false, true)] == Objects()[ptr := AllocValue(size, false, true)];
          assert bytes[ptr := size][ptr := size] == bytes[ptr := size];
          profile.RecordAlloc(ptr, size);
          if ignore {
            profile.MarkAsIgnored(ptr);
          }
        }
      }
    }

    lemma BoundsLoosen(bytes: map<Key, nat>, lowest: nat, highest: nat, ptr: Key, size: nat)
      requires Bounded(bytes, lowest, highest)
      ensures Bounded(bytes, if ptr < lowest then ptr else lowest, if ptr + size > highest then ptr + size else highest)
    {
    }

    method DeleteHook(ptr: Key, on: bool)
      requires Valid()
      modifies profile.addressMap
      ensures Valid() && Objects() == if ptr != NULL && on then old(Objects()) - {ptr} else old(Objects())
    {
      hide HeapProfileTable.Valid, HeapProfileTable.Objects, Bounded, Extents;
      FreedExtents(Objects(), ptr, minHeapAddress, maxHeapAddress);
      if ptr != NULL && on {
        profile.RecordFree(ptr);
      }
    }

    /** One word of the sweep: if it is a pointer into an object that is not yet
        live, the object is marked and its range is pushed. */
    method TryPointer(addr: Key) returns (newly: bool, ghost hit: bool, ghost target: Key)
      requires Valid() && Apart(Extents(Objects()))
      modifies `liveObjects, profile.addressMap
      ensures Valid() && Frozen() == old(Frozen())
      ensures hit ==> target in old(Objects()) && Resolves(Frozen().bytes, maxHeapObjectSize, addr, target)
      ensures !hit ==> forall k: Key :: !Resolves(Frozen().bytes, maxHeapObjectSize, addr, k)
      ensures Objects() == if hit then Marked(old(Objects()), target) else old(Objects())
      ensures newly <==> hit && !old(Objects())[target].live
      ensures liveObjects == if newly then old(liveObjects) + [AllocObject(target, old(Objects())[target].bytes, IgnoredOnHeap)]
                             else old(liveObjects)
    {
      hide HeapProfileTable.Valid, HeapProfileTable.Objects, Apart, Bounded, Resolves;
      newly, hit, target := false, false, 0;
      ghost var bytes: map<Key, nat> := Extents(Objects());
      forall k: Key | Resolves(bytes, maxHeapObjectSize, addr, k) ensures minHeapAddress <= addr <= maxHeapAddress {
        BoundsSuffice(bytes, minHeapAddress, maxHeapAddress, maxHeapObjectSize, addr, k);
      }
      if addr <= maxHeapAddress && minHeapAddress <= addr {
        var found, ptr, objectSize := profile.FindInsideAlloc(addr, maxHeapObjectSize);
        if found {
          hit, target := true, ptr;
          MarkedExtents(Objects(), ptr);
          newly := profile.MarkAsLive(ptr);
          if newly {
            liveObjects := liveObjects + [AllocObject(ptr, objectSize, IgnoredOnHeap)];
          }
        }
      }
    }

    /** The state of a flood: `objects` are those at its start, `live` those that
        are marked now, and `o` is the range being looked at, if any. */
    ghost predicate InFlood(g: World, objects: map<Key, AllocValue>, roots: seq<AllocObject>, live: set<Key>, o: seq<AllocObject>)
      reads this, profile, profile.addressMap
    {
      && Valid() && Frozen() == g && Objects() == WithLive(objects, live)
      && Live(objects) <= live <= objects.Keys && g.bytes == Extents(objects)
      && Flooding(g, roots, Live(objects), live, liveObjects + o)
    }

    /** Marks and pushes what the words of one range point to. */
    method Sweep(o: AllocObject, ghost g: World, ghost objects: map<Key, AllocValue>, ghost roots: seq<AllocObject>, ghost live0: set<Key>)
      returns (count: nat, ghost live: set<Key>)
      requires InFlood(g, objects, roots, live0, [o]) && Apart(g.bytes)
      modifies `liveObjects, profile.addressMap
      ensures InFlood(g, objects, roots, live, [o])
      ensures live0 <= live && count == |live - live0| && (live == live0 ==> liveObjects == old(liveObjects))
      ensures forall k: Key | Hits(g, o.ptr, o.size, k) :: k in live
    {
      hide InFlood, Flooding, Apart, Valid, Frozen, Objects, Resolves, Live, WithLive;
      InFloodWorld(g, objects, roots, live0, [o]);
      count, live := 0, live0;
      assert live - live0 == {};
      var at, size := o.ptr, o.size;
      var remainder := at % alignment;
      if remainder != 0 {
        RoundedUp(alignment, o.ptr);
        at := at + (alignment - remainder);
        size := if size >= alignment - remainder then size - (alignment - remainder) else 0;
      }
      forall w: Key | Scanned(alignment, o.ptr, o.size, w) ensures at <= w {
        FirstMultiple(alignment, o.ptr, w);
      }
      if size < POINTER_SIZE {
        return;
      }
      var last := at + size - POINTER_SIZE;
      assert last + POINTER_SIZE == o.ptr + o.size;
      while at <= last
        invariant InFlood(g, objects, roots, live, [o]) && alignment == g.alignment
        invariant at % alignment == 0 && o.ptr <= at
        invariant live0 <= live && count == |live - live0| && (live == live0 ==> liveObjects == old(liveObjects))
        invariant forall w: Key | Scanned(alignment, o.ptr, o.size, w) && w < at :: TargetsLive(g, live, w)
        decreases last + 1 - at
      {
        ghost var live1 := live;
        var newly;
        newly, live := SweepWord(at, o, g, objects, roots, live);
        MoreMarked(live0, live1, live);
        count := count + (if newly then 1 else 0);
        forall w: Key | Scanned(alignment, o.ptr, o.size, w) && w < at + alignment ensures TargetsLive(g, live, w) {
          if w < at { TargetsStayLive(g, live1, live, w); }
          else if at < w { NextMultiple(alignment, at, w); }
        }
        AfterMultiple(alignment, at);
        at := at + alignment;
      }
      forall k: Key | Hits(g, o.ptr, o.size, k) ensures k in live {
        var w: Key :| HitsAt(g, o.ptr, o.size, w, k);
        assert TargetsLive(g, live, w);
        TargetLive(g, live, w, k);
      }
    }

    lemma InFloodWorld(g: World, objects: map<Key, AllocValue>, roots: seq<AllocObject>, live: set<Key>, o: seq<AllocObject>)
      requires InFlood(g, objects, roots, live, o)
      ensures alignment == g.alignment > 0
    {
    }

    /** The step of the sweep at address `at`. */
    method SweepWord(at: Key, ghost o: AllocObject, ghost g: World, ghost objects: map<Key, AllocValue>,
                     ghost roots: seq<AllocObject>, ghost live: set<Key>)
      returns (newly: bool, ghost live1: set<Key>)
      requires InFlood(g, objects, roots, live, [o]) && Apart(g.bytes) && Scanned(g.alignment, o.ptr, o.size, at)
      modifies `liveObjects, profile.addressMap
      ensures InFlood(g, objects, roots, live1, [o]) && TargetsLive(g, live1, at)
      ensures live <= live1 && |live1 - live| == if newly then 1 else 0
      ensures !newly ==> live1 == live && liveObjects == old(liveObjects)
    {
      hide Flooding, Apart, HeapProfileTable.Valid, HeapProfileTable.Objects, Resolves, Live, WithLive, Bounded;
      WithLiveExtents(objects, live);
      ghost var hit, target;
      newly, hit, target := TryPointer(memory(at));
      live1 := if newly then live + {target} else live;
      if hit {
        WithLiveMarked(objects, live, target);
        OnlyTarget(g, live1, at, target);
        assert HitsAt(g, o.ptr, o.size, at, target);
        if newly {
          assert live1 - live == {target};
          assert liveObjects[|liveObjects| - 1] == AllocObject(target, g.bytes[target], IgnoredOnHeap);
          forall x ensures x in liveObjects + [o] <==> x in old(liveObjects) + [o] || x == AllocObject(target, g.bytes[target], IgnoredOnHeap) { }
          FloodFound(g, roots, Live(objects), live, old(liveObjects) + [o], o, at, target, liveObjects + [o]);
        } else {
          assert live + {target} == live;
        }
      }
      assert !newly ==> live1 - live == {};
    }

    /** IgnoreLiveObjectsLocked: marks every object that can be reached from the
        ranges on the stack through objects that were not yet marked. */
    method IgnoreLiveObjectsLocked() returns (ghost live: set<Key>)
      requires Valid() && Apart(Extents(Objects())) && Matching(Extents(Objects()), liveObjects)
      modifies `liveObjects, `liveObjectsTotal, profile.addressMap
      ensures Valid() && Frozen() == old(Frozen()) && liveObjects == []
      ensures Objects() == WithLive(old(Objects()), live) && Live(old(Objects())) <= live <= old(Objects()).Keys
      ensures forall k: Key :: k in live <==>
                k in Live(old(Objects())) || Reachable(old(Frozen()), old(liveObjects), Live(old(Objects())), k)
      ensures liveObjectsTotal == old(liveObjectsTotal) + |live - Live(old(Objects()))|
    {
      hide InFlood, Flooding, HeapProfileTable.Valid, HeapProfileTable.Objects, Apart, Live, WithLive, Bounded, Matching, Reachable, Extents;
      ghost var g, objects, roots := Frozen(), Objects(), liveObjects;
      FloodEntered(g, objects, roots);
      var liveObjectCount;
      liveObjectCount, live := Flood(g, objects, roots, Live(objects));
      FloodLeft(g, objects, roots, live);
      liveObjectsTotal := liveObjectsTotal + liveObjectCount;
    }

    /** The loop: pops ranges until the stack is empty. */
    method Flood(ghost g: World, ghost objects: map<Key, AllocValue>, ghost roots: seq<AllocObject>, ghost live0: set<Key>)
      returns (count: nat, ghost live: set<Key>)
      requires InFlood(g, objects, roots, live0, []) && Apart(g.bytes) && Matching(g.bytes, roots)
      modifies `liveObjects, profile.addressMap
      ensures InFlood(g, objects, roots, live, []) && liveObjects == []
      ensures live0 <= live && count == |live - live0|
    {
      hide InFlood, Valid, Frozen, Objects, Apart, Live, WithLive, Matching, Reachable, Extents;
      count, live := 0, live0;
      assert live - live0 == {};
      while liveObjects != []
        invariant InFlood(g, objects, roots, live, []) && live0 <= live && count == |live - live0|
        decreases |objects.Keys - live|, |liveObjects|
      {
        ghost var live1 := live;
        var n;
        n, live := FloodStep(g, objects, roots, live);
        count := count + n;
        MoreMarked(live0, live1, live);
        FloodProgress(g, objects, roots, live1, live);
      }
    }

    /** A flood begins with what is live already, and with the roots on the stack. */
    lemma FloodEntered(g: World, objects: map<Key, AllocValue>, roots: seq<AllocObject>)
      requires Valid() && g == Frozen() && objects == Objects() && roots == liveObjects
      ensures InFlood(g, objects, roots, Live(objects), []) && g.bytes == Extents(objects)
    {
      hide Flooding, HeapProfileTable.Valid, HeapProfileTable.Objects, Live, WithLive, Bounded, Extents;
      WithLiveSelf(objects);
      assert liveObjects + [] == roots;
      FloodStart(g, roots, Live(objects));
    }

    lemma FloodProgress(g: World, objects: map<Key, AllocValue>, roots: seq<AllocObject>, live1: set<Key>, live: set<Key>)
      requires InFlood(g, objects, roots, live, []) && live1 <= live
      ensures live == live1 || |objects.Keys - live| < |objects.Keys - live1|
    {
      if live != live1 { Shrinks(objects.Keys - live, objects.Keys - live1); }
    }

    /** With an empty stack, what is live is what it should be. */
    lemma FloodLeft(g: World, objects: map<Key, AllocValue>, roots: seq<AllocObject>, live: set<Key>)
      requires InFlood(g, objects, roots, live, []) && liveObjects == []
      ensures Valid() && Frozen() == g && Objects() == WithLive(objects, live) && Live(objects) <= live <= objects.Keys
      ensures forall k: Key :: k in live <==> k in Live(objects) || Reachable(g, roots, Live(objects), k)
    {
      hide Flooding, HeapProfileTable.Valid, HeapProfileTable.Objects, Live, WithLive, Bounded, Extents, Reachable;
      assert liveObjects + [] == [];
      FloodEnd(g, roots, Live(objects), live);
    }

    /** Pops one range from the stack and deals with it. */
    method FloodStep(ghost g: World, ghost objects: map<Key, AllocValue>, ghost roots: seq<AllocObject>, ghost live0: set<Key>)
      returns (count: nat, ghost live: set<Key>)
      requires InFlood(g, objects, roots, live0, []) && liveObjects != [] && Apart(g.bytes) && Matching(g.bytes, roots)
      modifies `liveObjects, profile.addressMap
      ensures InFlood(g, objects, roots, live, [])
      ensures live0 <= live && count == |live - live0|
      ensures live == live0 ==> |liveObjects| < |old(liveObjects)|
    {
      hide InFlood, Apart, Matching, RootOf, Hits;
      var o := Pop(g, objects, roots, live0);
      ghost var live1;
      var marked;
      marked, live1 := MarkRoot(o, g, objects, roots, live0);
      var n;
      n, live := Sweep(o, g, objects, roots, live1);
      MoreMarked(live0, live1, live);
      count := (if marked then 1 else 0) + n;
      Swept(o, g, objects, roots, live);
    }

    method Pop(ghost g: World, ghost objects: map<Key, AllocValue>, ghost roots: seq<AllocObject>, ghost live: set<Key>)
      returns (o: AllocObject)
      requires InFlood(g, objects, roots, live, []) && liveObjects != []
      modifies `liveObjects
      ensures InFlood(g, objects, roots, live, [o]) && liveObjects == old(liveObjects)[..|old(liveObjects)| - 1]
    {
      hide Flooding, HeapProfileTable.Valid, HeapProfileTable.Objects, Live, WithLive, Bounded, Extents;
      o := liveObjects[|liveObjects| - 1];
      liveObjects := liveObjects[..|liveObjects| - 1];
      assert old(liveObjects) + [] == liveObjects + [o];
    }

    /** A popped range that names a heap object makes that object live. */
    method MarkRoot(o: AllocObject, ghost g: World, ghost objects: map<Key, AllocValue>, ghost roots: seq<AllocObject>,
                    ghost live0: set<Key>)
      returns (marked: bool, ghost live: set<Key>)
      requires InFlood(g, objects, roots, live0, [o]) && Matching(g.bytes, roots)
      modifies profile.addressMap
      ensures InFlood(g, objects, roots, live, [o])
      ensures live0 <= live && |live - live0| == if marked then 1 else 0
      ensures o.place.MustBeOnHeap? && o.ptr in g.bytes ==> o.ptr in live
    {
      hide Flooding, HeapProfileTable.Valid, HeapProfileTable.Objects, Live, WithLive, Bounded, Matching, Extents;
      WithLiveExtents(objects, live0);
      marked, live := false, live0;
      assert live - live0 == {};
      if o.place == MustBeOnHeap {
        MarkedExtents(Objects(), o.ptr);
        marked := profile.MarkAsLive(o.ptr);
        if o.ptr in objects {
          WithLiveMarked(objects, live0, o.ptr);
          if marked {
            FloodMust(g, roots, Live(objects), live0, liveObjects + [o], o);
            live := live0 + {o.ptr};
            assert live - live0 == {o.ptr};
          }
        }
      }
    }

    lemma Swept(o: AllocObject, g: World, objects: map<Key, AllocValue>, roots: seq<AllocObject>, live: set<Key>)
      requires InFlood(g, objects, roots, live, [o])
      requires o.place.MustBeOnHeap? && o.ptr in g.bytes ==> o.ptr in live
      requires forall k: Key | Hits(g, o.ptr, o.size, k) :: k in live
      ensures InFlood(g, objects, roots, live, [])
    {
      hide Flooding, Hits, RootOf;
      forall k: Key | RootOf(g, o, k) ensures k in live { RootTargets(g, o, k); }
      FloodDone(g, roots, Live(objects), live, liveObjects + [o], o, liveObjects + []);
    }

    // ----- the whole check

    /** Pushes the ranges of one group and floods from them. */
    method IgnoreGroup(group: seq<AllocObject>, ghost roots: seq<AllocObject>)
      requires Valid() && Apart(Extents(Objects())) && Matching(Extents(Objects()), group)
      requires LiveFrom(Frozen(), roots, Live(Objects()))
      modifies `liveObjects, `liveObjectsTotal, profile.addressMap
      ensures Valid() && Frozen() == old(Frozen()) && liveObjects == []
      ensures LiveFrom(Frozen(), roots + group, Live(Objects())) && Relived(old(Objects()), Objects())
    {
      hide HeapProfileTable.Valid, HeapProfileTable.Objects, Bounded, Apart, Matching, Reachable, LiveFrom, Live, WithLive;
      ghost var objects := Objects();
      liveObjects := group;
      ghost var live := IgnoreLiveObjectsLocked();
      WithLiveLive(objects, live);
      FloodAfter(Frozen(), roots, group, Live(objects), live);
    }

    /** The ranges that hold groups of roots, flooded one group after the other. */
    method IgnoreGroups(groups: seq<seq<AllocObject>>, ghost roots0: seq<AllocObject>) returns (ghost roots: seq<AllocObject>)
      requires Valid() && Apart(Extents(Objects())) && forall i | 0 <= i < |groups| :: Matching(Extents(Objects()), groups[i])
      requires LiveFrom(Frozen(), roots0, Live(Objects())) && liveObjects == []
      modifies `liveObjects, `liveObjectsTotal, profile.addressMap
      ensures Valid() && Frozen() == old(Frozen()) && liveObjects == []
      ensures LiveFrom(Frozen(), roots, Live(Objects())) && Relived(old(Objects()), Objects())
      ensures forall o :: o in roots <==> o in roots0 || exists i :: 0 <= i < |groups| && o in groups[i]
    {
      hide HeapProfileTable.Valid, HeapProfileTable.Objects, Bounded, Apart, Matching, Reachable, LiveFrom, Live, WithLive, Relived;
      RelivedSelf(Objects());
      roots := roots0;
      var i := 0;
      while i < |groups|
        invariant 0 <= i <= |groups| && Valid() && Frozen() == old(Frozen()) && liveObjects == []
        invariant LiveFrom(Frozen(), roots, Live(Objects())) && Relived(old(Objects()), Objects())
        invariant forall o :: o in roots <==> o in roots0 || exists j :: 0 <= j < i && o in groups[j]
      {
        ghost var objects := Objects();
        IgnoreGroup(groups[i], roots);
        RelivedTwice(old(Objects()), objects, Objects());
        roots := roots + groups[i];
        i := i + 1;
      }
    }

    /** The allocations that were made while checking was disabled become roots. */
    method DisabledObjects() returns (group: seq<AllocObject>)
      requires Valid()
      ensures forall o :: o in group <==> IgnoredRoot(Objects(), o)
      ensures Matching(Extents(Objects()), group)
    {
      hide AddressMap.Valid, AddressMap.Table, Bounded;
      group := [];
      var ks, es := profile.addressMap.Iterate();
      var i := 0;
      while i < |ks|
        invariant 0 <= i <= |ks|
        invariant forall o :: o in group <==> IgnoredRoot(Objects(), o) && o.ptr in ks[..i]
      {
        profile.addressMap.TableAt(ks[i]);
        var v := profile.addressMap.values[es[i]];
        if v.ignore {
          group := group + [AllocObject(ks[i], v.bytes, MustBeOnHeap)];
        }
        i := i + 1;
      }
      assert ks[..i] == ks;
    }

    /** IgnoreAllLiveObjectsLocked and what it calls: marks all that the roots
        reach. `before` and `after` are the groups of ranges flooded before and
        after the objects allocated with checking disabled. */
    method IgnoreAllLiveObjectsLocked(before: seq<seq<AllocObject>>, after: seq<seq<AllocObject>>, maxOffset: int)
      returns (ghost roots: seq<AllocObject>)
      requires Valid() && Apart(Extents(Objects())) && liveObjects == [] && Live(Objects()) == {}
      requires forall i | 0 <= i < |before| :: Matching(Extents(Objects()), before[i])
      requires forall i | 0 <= i < |after| :: Matching(Extents(Objects()), after[i])
      modifies `liveObjects, `liveObjectsTotal, `maxHeapObjectSize, profile.addressMap
      ensures Valid() && liveObjects == [] && maxHeapObjectSize == old(maxHeapObjectSize)
      ensures Relived(old(Objects()), Objects())
      ensures LiveFrom(CheckWorld(old(Frozen()), maxOffset), roots, Live(Objects()))
      ensures forall o :: o in roots <==> RootGiven(before, after, old(Objects()), o)
    {
      hide Apart, Matching, Reachable, LiveFrom, Live, WithLive, Bounded, Relived, HeapProfileTable.Valid, HeapProfileTable.Objects;
      ghost var objects := Objects();
      liveObjectsTotal := 0;
      var oldMax := maxHeapObjectSize;
      maxHeapObjectSize := if maxOffset != -1 && 0 <= maxOffset < oldMax then maxOffset else oldMax;
      LiveFromNothing(Frozen());
      roots := IgnoreGroups(before, []);
      RelivedExtents(objects, Objects());
      var group := DisabledObjects();
      ghost var objects1, roots1 := Objects(), roots;
      IgnoreGroup(group, roots);
      roots := roots + group;
      RelivedTwice(objects, objects1, Objects());
      RelivedExtents(objects, Objects());
      ghost var objects2 := Objects();
      roots := IgnoreGroups(after, roots);
      RelivedTwice(objects, objects2, Objects());
      forall o ensures IgnoredRoot(objects1, o) <==> IgnoredRoot(objects, o) { RelivedIgnored(objects, objects1, o); }
      maxHeapObjectSize := oldMax;
    }

    /** The verdict of a check, as DoNoLeaks computes it: the leaks are exactly the
        objects that no root reaches and that `base` does not list. */
    method FindLeaks(before: seq<seq<AllocObject>>, after: seq<seq<AllocObject>>, maxOffset: int, base: Snapshot?)
      returns (leaks: Snapshot, ghost roots: seq<AllocObject>)
      requires Valid() && Apart(Extents(Objects())) && liveObjects == [] && Live(Objects()) == {}
      requires forall i | 0 <= i < |before| :: Matching(Extents(Objects()), before[i])
      requires forall i | 0 <= i < |after| :: Matching(Extents(Objects()), after[i])
      requires base != null ==> base.Valid() && base.map_ != profile.addressMap
      modifies `liveObjects, `liveObjectsTotal, `maxHeapObjectSize, profile.addressMap
      ensures Valid() && liveObjects == [] && maxHeapObjectSize == old(maxHeapObjectSize)
      ensures Objects() == old(Objects())
      ensures fresh(leaks) && leaks.Valid()
      ensures forall o :: o in roots <==> RootGiven(before, after, old(Objects()), o)
      ensures forall k: Key :: k in leaks.Objects() <==>
                k in old(Objects()) && (base == null || k !in old(base.Objects())) &&
                !Reachable(CheckWorld(old(Frozen()), maxOffset), roots, {}, k)
    {
      hide Apart, Matching, Reachable, Bounded, HeapProfileTable.Valid, HeapProfileTable.Objects, RootGiven, AddressMap.Valid,
        AddressMap.Table;
      ghost var objects := Objects();
      roots := IgnoreAllLiveObjectsLocked(before, after, maxOffset);
      RelivedExtents(objects, Objects());
      UnmarkedRelived(objects, Objects());
      leaks := profile.NonLiveSnapshot(base);
    }
  }

  lemma RootTargets(g: World, o: AllocObject, k: Key)
    requires RootOf(g, o, k)
    ensures Hits(g, o.ptr, o.size, k) || (o.place.MustBeOnHeap? && k == o.ptr && k in g.bytes)
  {
  }

  lemma Shrinks(a: set<Key>, b: set<Key>)
    requires a < b
    ensures |a| < |b|
  {
    assert b == a + (b - a);
  }

  /** Every object that the word at `w` may point to is live. */
  ghost predicate TargetsLive(g: World, live: set<Key>, w: Key) {
    forall k: Key | Resolves(g.bytes, g.maxSize, g.memory(w), k) :: k in live
  }

  lemma TargetLive(g: World, live: set<Key>, w: Key, k: Key)
    requires TargetsLive(g, live, w) && Resolves(g.bytes, g.maxSize, g.memory(w), k)
    ensures k in live
  {
  }

  lemma TargetsStayLive(g: World, live: set<Key>, live1: set<Key>, w: Key)
    requires TargetsLive(g, live, w) && live <= live1
    ensures TargetsLive(g, live1, w)
  {
  }

  lemma OnlyTarget(g: World, live: set<Key>, w: Key, k: Key)
    requires Apart(g.bytes) && Resolves(g.bytes, g.maxSize, g.memory(w), k) && k in live
    ensures TargetsLive(g, live, w)
  {
    forall j: Key | Resolves(g.bytes, g.maxSize, g.memory(w), j) ensures j in live {
      ResolvesOnce(g.bytes, g.maxSize, g.memory(w), k, j);
    }
  }

  // ----- the roots of a check

  /** The live bits may differ, and nothing else. */
  ghost predicate Relived(objects: map<Key, AllocValue>, objects1: map<Key, AllocValue>) {
    objects1 == WithLive(objects, Live(objects1))
  }

  lemma RelivedSelf(objects: map<Key, AllocValue>)
    ensures Relived(objects, objects)
  {
  }

  lemma RelivedTwice(objects: map<Key, AllocValue>, objects1: map<Key, AllocValue>, objects2: map<Key, AllocValue>)
    requires Relived(objects, objects1) && Relived(objects1, objects2)
    ensures Relived(objects, objects2)
  {
  }

  lemma RelivedExtents(objects: map<Key, AllocValue>, objects1: map<Key, AllocValue>)
    requires Relived(objects, objects1)
    ensures Extents(objects1) == Extents(objects)
  {
  }

  lemma RelivedIgnored(objects: map<Key, AllocValue>, objects1: map<Key, AllocValue>, o: AllocObject)
    requires Relived(objects, objects1)
    ensures IgnoredRoot(objects1, o) <==> IgnoredRoot(objects, o)
  {
  }

  lemma UnmarkedRelived(objects: map<Key, AllocValue>, objects1: map<Key, AllocValue>)
    requires Relived(objects, objects1) && Live(objects) == {}
    ensures Unmarked(objects1) == objects && objects1.Keys == objects.Keys
    ensures forall k | k in objects1 :: objects1[k].live <==> k in Live(objects1)
  {
    forall k | k in objects ensures !objects[k].live {
      assert k !in Live(objects);
    }
  }

  /** The range of an object that was allocated while checking was disabled. */
  ghost predicate IgnoredRoot(objects: map<Key, AllocValue>, o: AllocObject) {
    o.place.MustBeOnHeap? && o.ptr in objects && objects[o.ptr].ignore && o.size == objects[o.ptr].bytes
  }

  ghost predicate RootGiven(before: seq<seq<AllocObject>>, after: seq<seq<AllocObject>>, objects: map<Key, AllocValue>, o: AllocObject) {
    || (exists i :: 0 <= i < |before| && o in before[i])
    || (exists i :: 0 <= i < |after| && o in after[i])
    || IgnoredRoot(objects, o)
  }

  /** During a check pointers may lead at most `maxOffset` into an object. */
  ghost function CheckWorld(g: World, maxOffset: int): World {
    if 0 <= maxOffset < g.maxSize then g.(maxSize := maxOffset) else g
  }

  /** An object that was allocated while checking was disabled is never a leak. */
  lemma IgnoredReachable(g: World, objects: map<Key, AllocValue>, roots: seq<AllocObject>, k: Key)
    requires g.bytes == Extents(objects) && k in objects && objects[k].ignore
    requires forall o | IgnoredRoot(objects, o) :: o in roots
    ensures Reachable(g, roots, {}, k)
  {
    var o := AllocObject(k, objects[k].bytes, MustBeOnHeap);
    assert IgnoredRoot(objects, o) && RootOf(g, o, k);
    ReachRoot(g, roots, {}, k);
  }

  /** Reading every address as a possible pointer, or allowing pointers farther
      into objects, never adds a leak. */
  lemma LooserReaches(g: World, h: World, roots: seq<AllocObject>, k: Key)
    requires h.memory == g.memory && h.bytes == g.bytes && h.maxSize >= g.maxSize
    requires h.alignment == g.alignment || h.alignment == 1
    requires Reachable(g, roots, {}, k)
    ensures Reachable(h, roots, {}, k)
  {
    hide HitsAt;
    var p :| Path(g, roots, {}, p) && p[|p| - 1] == k;
    forall i, j | 0 <= i && j == i + 1 < |p| ensures PointsTo(h, p[i], p[j]) {
      assert PointsTo(g, p[i], p[j]);
      LooserHits(g, h, p[i], g.bytes[p[i]], p[j]);
    }
    var r :| r in roots && RootOf(g, r, p[0]);
    if Hits(g, r.ptr, r.size, p[0]) { LooserHits(g, h, r.ptr, r.size, p[0]); }
    assert RootOf(h, r, p[0]);
    assert Path(h, roots, {}, p);
  }

  lemma LooserHits(g: World, h: World, start: Key, size: nat, k: Key)
    requires h.memory == g.memory && h.bytes == g.bytes && h.maxSize >= g.maxSize
    requires h.alignment == g.alignment || h.alignment == 1
    requires Hits(g, start, size, k)
    ensures Hits(h, start, size, k)
  {
    var w: Key :| HitsAt(g, start, size, w, k);
    assert HitsAt(h, start, size, w, k);
  }
}
