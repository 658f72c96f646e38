/** The table of live allocations of heap-profile-table.cc: a record for each
    allocated object, with the two flag bits that leak checking uses. */
module HeapProfiles {
  import opened Sequences
  import opened LinkedLists
  import opened AddressMaps

  datatype AllocValue = AllocValue(bytes: nat, live: bool, ignore: bool)

  function AllocValueSize(v: AllocValue): nat { v.bytes }

  /** The size of each recorded object. */
  ghost function Extents(objects: map<Key, AllocValue>): map<Key, nat> {
    Sizes(AllocValueSize, objects)
  }

  /** The object that a pointer value is taken for: the one whose range holds
      it, if it starts near enough. */
  ghost predicate Resolves(bytes: map<Key, nat>, maxSize: nat, ptr: Key, target: Key) {
    InRange(bytes, ptr, target) && Near(maxSize, ptr, target)
  }

  lemma ResolvesOnce(bytes: map<Key, nat>, maxSize: nat, ptr: Key, a: Key, b: Key)
    requires Apart(bytes) && Resolves(bytes, maxSize, ptr, a) && Resolves(bytes, maxSize, ptr, b)
    ensures a == b
  {
  }

  /** With the size of the largest object as limit, the distance never matters. */
  lemma LargestFindsAll(bytes: map<Key, nat>, maxSize: nat, ptr: Key, target: Key)
    requires forall k | k in bytes :: bytes[k] <= maxSize
    ensures Resolves(bytes, maxSize, ptr, target) <==> InRange(bytes, ptr, target)
  {
    if InRange(bytes, ptr, target) {
      WithinReach(maxSize, ptr, target);
    }
  }

  function Marked(objects: map<Key, AllocValue>, ptr: Key): map<Key, AllocValue> {
    if ptr in objects then objects[ptr := objects[ptr].(live := true)] else objects
  }

  function Unmarked(objects: map<Key, AllocValue>): map<Key, AllocValue> {
    map k | k in objects :: objects[k].(live := false)
  }

  /** The recorded objects that are not marked live and not in `base`. */
  function Leaks(objects: map<Key, AllocValue>, base: set<Key>): map<Key, AllocValue> {
    map k | k in objects && !objects[k].live && k !in base :: objects[k]
  }

  lemma MarkedExtents(objects: map<Key, AllocValue>, ptr: Key)
    ensures Extents(Marked(objects, ptr)) == Extents(objects)
  {
  }

  /** The bytes of all objects together. */
  ghost function BytesOf(objects: map<Key, AllocValue>): nat {
    if objects == map[] then 0
    else
      var k :| k in objects;
      objects[k].bytes + BytesOf(objects - {k})
  }

  lemma {:induction false} BytesWithout(objects: map<Key, AllocValue>, ptr: Key)
    requires ptr in objects
    ensures BytesOf(objects) == objects[ptr].bytes + BytesOf(objects - {ptr})
  {
    var k :| k in objects && BytesOf(objects) == objects[k].bytes + BytesOf(objects - {k});
    if k != ptr {
      BytesWithout(objects - {k}, ptr);
      BytesWithout(objects - {ptr}, k);
      assert objects - {k} - {ptr} == objects - {ptr} - {k};
    }
  }

  lemma BytesAdded(objects: map<Key, AllocValue>, ptr: Key, v: AllocValue)
    requires ptr !in objects
    ensures BytesOf(objects[ptr := v]) == BytesOf(objects) + v.bytes
  {
    BytesWithout(objects[ptr := v], ptr);
    assert objects[ptr := v] - {ptr} == objects;
  }

  class HeapProfileTable {
    const addressMap: AddressMap<AllocValue>

    ghost predicate Valid()
      reads this, addressMap
    {
      addressMap.Valid()
    }

    ghost function Objects(): map<Key, AllocValue>
      reads this, addressMap
      requires Valid()
    {
      addressMap.Table()
    }

    constructor ()
      ensures Valid() && fresh(addressMap) && Objects() == map[]
    {
      addressMap := new AddressMap<AllocValue>();
    }

    method RecordAlloc(ptr: Key, bytes: nat)
      requires Valid()
      modifies addressMap
      ensures Valid() && Objects() == old(Objects())[ptr := AllocValue(bytes, false, false)]
    {
      addressMap.Insert(ptr, AllocValue(bytes, false, false));
    }

    method RecordFree(ptr: Key)
      requires Valid()
      modifies addressMap
      ensures Valid() && Objects() == old(Objects()) - {ptr}
    {
      var found, v := addressMap.FindAndRemove(ptr, AllocValue(0, false, false));
    }

    /** Finds the object that `ptr` points into, at its start or inside. */
    method FindInsideAlloc(ptr: Key, maxSize: nat) returns (found: bool, target: Key, objectSize: nat)
      requires Valid()
      ensures found ==> target in Objects() && objectSize == Objects()[target].bytes
      ensures Apart(Extents(Objects())) && found ==> Resolves(Extents(Objects()), maxSize, ptr, target)
      ensures Apart(Extents(Objects())) && !found ==> forall k: Key :: !Resolves(Extents(Objects()), maxSize, ptr, k)
    {
      hide Apart, Near, InRange;
      var e := addressMap.FindInside(AllocValueSize, maxSize, ptr);
      found, target, objectSize := e != NULL, 0, 0;
      if found {
        target := addressMap.keys[e];
        addressMap.AtNonnull(target);
        addressMap.TableAt(target);
        objectSize := addressMap.values[e].bytes;
      }
    }

    /** Sets the live bit of a recorded object; false if there is nothing to set. */
    method MarkAsLive(ptr: Key) returns (marked: bool)
      requires Valid()
      modifies addressMap
      ensures Valid() && Objects() == Marked(old(Objects()), ptr)
      ensures marked <==> ptr in old(Objects()) && !old(Objects())[ptr].live
    {
      hide AddressMap.Valid, AddressMap.Table;
      var e := addressMap.FindMutable(ptr);
      addressMap.AtNonnull(ptr);
      if e != NULL && !addressMap.values[e].live {
        addressMap.SetValue(e, ptr, addressMap.values[e].(live := true));
        return true;
      }
      assert ptr in Objects() ==> Objects()[ptr := Objects()[ptr]] == Objects();
      return false;
    }

    method MarkAsIgnored(ptr: Key)
      requires Valid()
      modifies addressMap
      ensures Valid()
      ensures Objects() == if ptr in old(Objects()) then old(Objects())[ptr := old(Objects())[ptr].(ignore := true)]
                           else old(Objects())
    {
      hide AddressMap.Valid, AddressMap.Table;
      var e := addressMap.FindMutable(ptr);
      addressMap.AtNonnull(ptr);
      if e != NULL {
        addressMap.SetValue(e, ptr, addressMap.values[e].(ignore := true));
      }
    }

    /** The step of NonLiveSnapshot for one entry of the table. */
    method AddIfNonLive(ptr: Key, e: Ptr, base: Snapshot?, dest: Snapshot)
      requires Valid() && ptr in Objects() && ptr in addressMap.at && e == addressMap.at[ptr]
      requires base != null ==> base.Valid() && base.map_ != addressMap && base.map_ != dest.map_ && base != dest
      requires dest.Valid() && dest.map_ != addressMap && ptr !in dest.Objects()
      modifies addressMap, dest, dest.map_
      ensures Valid() && Objects() == old(Objects())[ptr := old(Objects())[ptr].(live := false)]
      ensures addressMap.at == old(addressMap.at)
      ensures base != null ==> base.Valid() && base.Objects() == old(base.Objects())
      ensures dest.Valid()
      ensures dest.Objects() == if old(Objects())[ptr].live || (base != null && ptr in base.Objects()) then old(dest.Objects())
                                else old(dest.Objects())[ptr := old(Objects())[ptr]]
    {
      hide AddressMap.Valid, AddressMap.Table;
      addressMap.AtNonnull(ptr);
      addressMap.TableAt(ptr);
      var v := addressMap.values[e];
      assert !v.live ==> Objects()[ptr := Objects()[ptr].(live := false)] == Objects();
      if v.live {
        addressMap.SetValue(e, ptr, v.(live := false));
      } else {
        var present := NULL;
        if base != null {
          present := base.map_.FindMutable(ptr);
          base.map_.AtNonnull(ptr);
        }
        if present == NULL {
          dest.Add(ptr, v);
        }
      }
    }

    /** The objects to report: those recorded, not marked live and not in `base`.
        All live bits are clear afterwards. */
    method NonLiveSnapshot(base: Snapshot?) returns (s: Snapshot)
      requires Valid() && (base != null ==> base.Valid() && base.map_ != addressMap)
      modifies addressMap
      ensures Valid() && Objects() == Unmarked(old(Objects()))
      ensures fresh(s) && fresh(s.map_) && s.Valid()
      ensures s.Objects() == Leaks(old(Objects()), if base == null then {} else old(base.Objects()).Keys)
      ensures base != null ==> base.Valid() && base.Objects() == old(base.Objects())
    {
      hide AddressMap.Valid, AddressMap.Table, ClearedIn, LeaksIn, Leaks, Unmarked, BytesOf;
      s := new Snapshot();
      ghost var was := Objects();
      ghost var skip := if base == null then {} else base.Objects().Keys;
      var ks, es := addressMap.Iterate();
      SeenNone(was, skip);
      ghost var seen: set<Key> := {};
      var i := 0;
      while i < |ks|
        invariant 0 <= i <= |ks| && forall k :: k in seen <==> k in ks[..i]
        invariant Valid() && Objects() == ClearedIn(was, seen) && addressMap.at == old(addressMap.at)
        invariant s.Valid() && fresh(s) && fresh(s.map_) && s.Objects() == LeaksIn(was, skip, seen)
        invariant base != null ==> base.Valid() && base.Objects() == old(base.Objects())
      {
        assert ks[i] !in ks[..i];
        ClearOne(was, seen, ks[i]);
        LeakOne(was, skip, seen, ks[i]);
        AddIfNonLive(ks[i], es[i], base, s);
        seen := seen + {ks[i]};
        i := i + 1;
      }
      assert ks[..i] == ks;
      assert forall k | k in was :: k in ks;
      SeenAll(was, skip, seen);
    }
  }

  ghost function ClearedIn(objects: map<Key, AllocValue>, seen: set<Key>): map<Key, AllocValue> {
    map k | k in objects :: if k in seen then objects[k].(live := false) else objects[k]
  }

  ghost function LeaksIn(objects: map<Key, AllocValue>, skip: set<Key>, seen: set<Key>): map<Key, AllocValue> {
    map k | k in objects && !objects[k].live && k !in skip && k in seen :: objects[k]
  }

  lemma SeenNone(objects: map<Key, AllocValue>, skip: set<Key>)
    ensures ClearedIn(objects, {}) == objects && LeaksIn(objects, skip, {}) == map[]
  {
  }

  lemma SeenAll(objects: map<Key, AllocValue>, skip: set<Key>, seen: set<Key>)
    requires forall k | k in objects :: k in seen
    ensures ClearedIn(objects, seen) == Unmarked(objects) && LeaksIn(objects, skip, seen) == Leaks(objects, skip)
  {
  }

  lemma ClearOne(objects: map<Key, AllocValue>, seen: set<Key>, k: Key)
    requires k in objects && k !in seen
    ensures k in ClearedIn(objects, seen) && ClearedIn(objects, seen)[k] == objects[k]
    ensures ClearedIn(objects, seen)[k := objects[k].(live := false)] == ClearedIn(objects, seen + {k})
  {
  }

  lemma LeakOne(objects: map<Key, AllocValue>, skip: set<Key>, seen: set<Key>, k: Key)
    requires k in objects && k !in seen
    ensures k !in LeaksIn(objects, skip, seen)
    ensures LeaksIn(objects, skip, seen + {k}) ==
            if objects[k].live || k in skip then LeaksIn(objects, skip, seen) else LeaksIn(objects, skip, seen)[k := objects[k]]
  {
  }

  /** A snapshot of part of the table, with its own counts. */
  class Snapshot {
    const map_: AddressMap<AllocValue>
    var allocs: nat
    var allocSize: nat

    ghost predicate Valid()
      reads this, map_
    {
      map_.Valid() && allocs == |map_.Table()| && allocSize == BytesOf(map_.Table())
    }

    ghost function Objects(): map<Key, AllocValue>
      reads this, map_
      requires Valid()
    {
      map_.Table()
    }

    constructor ()
      ensures Valid() && fresh(map_) && Objects() == map[]
    {
      map_ := new AddressMap<AllocValue>();
      allocs, allocSize := 0, 0;
    }

    method Add(ptr: Key, v: AllocValue)
      requires Valid() && ptr !in Objects()
      modifies this, map_
      ensures Valid() && Objects() == old(Objects())[ptr := v]
    {
      hide AddressMap.Valid, AddressMap.Table;
      ghost var objects := Objects();
      BytesAdded(objects, ptr, v);
      map_.Insert(ptr, v);
      allocs := allocs + 1;
      allocSize := allocSize + v.bytes;
      assert objects[ptr := v].Keys == objects.Keys + {ptr};
      assert |objects[ptr := v].Keys| == |objects[ptr := v]| && |objects.Keys| == |objects|;
    }

    /** The verdict of the leak check. */
    method Empty() returns (empty: bool)
      requires Valid()
      ensures empty <==> Objects() == map[]
    {
      hide AddressMap.Valid, AddressMap.Table;
      empty := allocs == 0 && allocSize == 0;
      assert Objects() == map[] <==> |Objects()| == 0;
    }
  }
}
