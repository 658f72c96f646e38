/** The address map of addressmap-inl.h: hash chains of clusters, one list of
    entries per block of 128 addresses, and a list of unused entries. */
module AddressMaps {
  import opened Sequences
  import opened LinkedLists

  const HASH_SIZE: nat := 4096
  const CLUSTER_BLOCKS: nat := 8192
  const ALLOC_COUNT: nat := 64

  type Key = nat

  /** Multiplicative hashing: the top 12 of the low 32 bits of the product. */
  function HashInt(x: nat): (h: nat)
    ensures h < HASH_SIZE
  {
    (x % 0x1_0000_0000 * 2654435769 % 0x1_0000_0000) / 0x10_0000
  }

  /** Number of the 128-byte block, and of the 1 MB cluster, of an address. */
  function Block(key: Key): nat { key / 128 }
  function ClusterId(key: Key): nat { key / 1048576 }
  function BlockID(key: Key): nat { key / 128 % CLUSTER_BLOCKS }

  lemma BlockParts(key: Key)
    ensures Block(key) / CLUSTER_BLOCKS == ClusterId(key) && Block(key) % CLUSTER_BLOCKS == BlockID(key)
  {
  }

  // ----- representation

  /** Bucket `h` chains exactly the clusters whose id hashes to `h`. */
  ghost predicate Hashed(hashtable: seq<Ptr>, clusterNext: map<Ptr, Ptr>, clusterId: map<Ptr, nat>,
                         chains: seq<seq<Ptr>>, clusters: map<nat, Ptr>)
  {
    && |hashtable| == HASH_SIZE == |chains|
    && (forall h: nat | h < HASH_SIZE :: Chain(clusterNext, hashtable[h], chains[h]))
    && (forall h: nat, c | h < HASH_SIZE && c in chains[h] :: InBucket(clusterId, clusters, h, c))
    && (forall id | id in clusters ::
          clusters[id] in chains[HashInt(id)] && clusters[id] in clusterId && clusterId[clusters[id]] == id)
  }

  ghost predicate InBucket(clusterId: map<Ptr, nat>, clusters: map<nat, Ptr>, h: nat, c: Ptr) {
    c in clusterId && HashInt(clusterId[c]) == h && clusterId[c] in clusters && clusters[clusterId[c]] == c
  }

  /** The head of the list of block `b`; a missing cluster has empty lists. */
  function HeadAt(clusters: map<nat, Ptr>, heads: map<(Ptr, nat), Ptr>, b: nat): Ptr {
    if b / CLUSTER_BLOCKS in clusters then Slot(heads, clusters[b / CLUSTER_BLOCKS], b % CLUSTER_BLOCKS) else NULL
  }

  function Slot(heads: map<(Ptr, nat), Ptr>, c: Ptr, i: nat): Ptr {
    if (c, i) in heads then heads[(c, i)] else NULL
  }

  function ListOf(lists: map<nat, seq<Ptr>>, b: nat): seq<Ptr> {
    if b in lists then lists[b] else []
  }

  /** Every block list is a chain of entries with keys of that block; `at` sends
      each key to its one entry; unused entries are on the free list only. */
  ghost predicate Entered(clusters: map<nat, Ptr>, heads: map<(Ptr, nat), Ptr>, next: map<Ptr, Ptr>,
                          keys: map<Ptr, Key>, lists: map<nat, seq<Ptr>>, at: map<Key, Ptr>,
                          free: Ptr, freeList: seq<Ptr>)
  {
    && (forall b: nat :: Chain(next, HeadAt(clusters, heads, b), ListOf(lists, b)))
    && (forall b: nat, e | e in ListOf(lists, b) :: Holds(keys, at, b, e))
    && (forall k | k in at :: at[k] in ListOf(lists, Block(k)) && at[k] in keys && keys[at[k]] == k)
    && Chain(next, free, freeList)
    && (forall k | k in at :: at[k] !in freeList)
  }

  ghost predicate Holds(keys: map<Ptr, Key>, at: map<Key, Ptr>, b: nat, e: Ptr) {
    e in keys && Block(keys[e]) == b && keys[e] in at && at[keys[e]] == e
  }

  ghost predicate Valued<V>(at: map<Key, Ptr>, values: map<Ptr, V>) {
    forall k | k in at :: at[k] in values
  }

  ghost function TableOf<V>(at: map<Key, Ptr>, values: map<Ptr, V>): map<Key, V>
    requires Valued(at, values)
  {
    map k | k in at :: values[at[k]]
  }

  lemma TableAdd<V>(at: map<Key, Ptr>, values: map<Ptr, V>, key: Key, e: Ptr, value: V)
    requires Valued(at, values) && forall k | k in at && k != key :: at[k] != e
    ensures Valued(at[key := e], values[e := value])
    ensures TableOf(at[key := e], values[e := value]) == TableOf(at, values)[key := value]
  {
  }

  lemma TableDrop<V>(at: map<Key, Ptr>, values: map<Ptr, V>, key: Key)
    requires Valued(at, values)
    ensures Valued(at - {key}, values) && TableOf(at - {key}, values) == TableOf(at, values) - {key}
  {
  }

  class AddressMap<V> {
    var hashtable: seq<Ptr>
    var clusterNext: map<Ptr, Ptr>
    var clusterId: map<Ptr, nat>
    var heads: map<(Ptr, nat), Ptr>   // Cluster.blocks; zeroed slots have no entry
    var next: map<Ptr, Ptr>           // Entry.next
    var keys: map<Ptr, Key>           // Entry.key
    var values: map<Ptr, V>           // Entry.value
    var free: Ptr

    ghost var clusters: map<nat, Ptr>
    ghost var chains: seq<seq<Ptr>>
    ghost var lists: map<nat, seq<Ptr>>
    ghost var freeList: seq<Ptr>
    ghost var at: map<Key, Ptr>

    ghost predicate Valid()
      reads this
    {
      && Hashed(hashtable, clusterNext, clusterId, chains, clusters)
      && Entered(clusters, heads, next, keys, lists, at, free, freeList)
      && Valued(at, values)
    }

    /** The finite map that this object represents. */
    ghost function Table(): map<Key, V>
      reads this
      requires Valid()
    {
      TableOf(at, values)
    }

    constructor ()
      ensures Valid() && Table() == map[]
    {
      hashtable := seq(HASH_SIZE, _ => NULL);
      clusterNext, clusterId, heads, next, keys, values, free := map[], map[], map[], map[], map[], map[], NULL;
      clusters, chains, lists, freeList, at := map[], seq(HASH_SIZE, _ => []), map[], [], map[];
    }

    /** The search loop of FindCluster. */
    method LookupCluster(address: Key) returns (c: Ptr)
      requires Valid()
      ensures c == if ClusterId(address) in clusters then clusters[ClusterId(address)] else NULL
      ensures ClusterId(address) in clusters ==> c != NULL
    {
      hide Entered, HashInt;
      var id := ClusterId(address);
      var h := HashInt(id);
      ghost var xs := chains[h];
      c := hashtable[h];
      ghost var i := 0;
      assert xs != [] ==> Linked(clusterNext, xs, 0);
      while c != NULL
        invariant i <= |xs| && c == (if i < |xs| then xs[i] else NULL)
        invariant c == NULL <==> i == |xs|
        invariant forall j | 0 <= j < i :: xs[j] in clusterId && clusterId[xs[j]] != id
        decreases |xs| - i
      {
        assert InBucket(clusterId, clusters, h, xs[i]);
        assert Linked(clusterNext, xs, i);
        if clusterId[c] == id {
          return;
        }
        assert i + 1 < |xs| ==> Linked(clusterNext, xs, i + 1);
        c := clusterNext[c];
        i := i + 1;
      }
    }

    /** FindCluster with create set. */
    method FindCluster(address: Key) returns (c: Ptr)
      requires Valid()
      modifies `hashtable, `clusterNext, `clusterId, `clusters, `chains, `heads
      ensures Valid() && Table() == old(Table())
      ensures ClusterId(address) in clusters && c == clusters[ClusterId(address)]
    {
      hide Hashed, Entered, HashInt, ClusterId, TableOf, Valued;
      c := LookupCluster(address);
      if c == NULL {
        var id := ClusterId(address);
        var h := HashInt(id);
        c := NewPointer(clusterNext.Keys + clusterId.Keys + (set x | x in heads :: x.0));
        AddCluster(hashtable, clusterNext, clusterId, chains, clusters, id, c);
        NewClusterEmpty(clusters, heads, next, keys, lists, at, free, freeList, id, c);
        clusterId := clusterId[c := id];
        clusterNext := clusterNext[c := hashtable[h]];
        chains := chains[h := [c] + chains[h]];
        hashtable := hashtable[h := c];
        clusters := clusters[id := c];
      }
    }

    /** The search loop over one block list: the entry for `key`, or NULL, and
        the entry before it. */
    method SearchBlock(c: Ptr, key: Key) returns (e: Ptr, before: Ptr, ghost i: nat)
      requires Valid() && ClusterId(key) in clusters && c == clusters[ClusterId(key)]
      ensures e == if key in at then at[key] else NULL
      ensures key in at ==> At(ListOf(lists, Block(key)), i, e, before)
    {
      hide Hashed, HashInt;
      BlockParts(key);
      ghost var xs := ListOf(lists, Block(key));
      before := NULL;
      e := Slot(heads, c, BlockID(key));
      i := 0;
      assert Chain(next, HeadAt(clusters, heads, Block(key)), xs);
      assert xs != [] ==> Linked(next, xs, 0);
      while e != NULL
        invariant i <= |xs| && e == (if i < |xs| then xs[i] else NULL)
        invariant e == NULL <==> i == |xs|
        invariant before == if i == 0 then NULL else xs[i - 1]
        invariant forall j | 0 <= j < i :: xs[j] in keys && keys[xs[j]] != key
        decreases |xs| - i
      {
        assert Linked(next, xs, i);
        assert xs[i] in xs && Holds(keys, at, Block(key), xs[i]);
        if keys[e] == key {
          return;
        }
        assert i + 1 < |xs| ==> Linked(next, xs, i + 1);
        before, e, i := e, next[e], i + 1;
      }
      assert forall x | x in xs :: x in keys && keys[x] != key;
    }

    /** FindMutable: a pointer to the entry that holds the value, or NULL. */
    method FindMutable(key: Key) returns (e: Ptr)
      requires Valid()
      ensures e == if key in at then at[key] else NULL
      ensures key in at <==> key in Table()
      ensures e != NULL ==> key in at && e in values && values[e] == Table()[key]
    {
      hide Hashed, Entered;
      KeyClustered(key);
      AtNonnull(key);
      var c := LookupCluster(key);
      if c == NULL {
        return NULL;
      }
      ghost var i;
      var before;
      e, before, i := SearchBlock(c, key);
    }

    /** Writing through the pointer that FindMutable returned. */
    method SetValue(e: Ptr, ghost key: Key, value: V)
      requires Valid() && key in at && e == at[key]
      modifies `values
      ensures Valid() && Table() == old(Table())[key := value] && values == old(values)[e := value]
    {
      hide Hashed, TableOf, Valued;
      AtInjective(key);
      assert at[key := e] == at;
      TableAdd(at, values, key, e, value);
      values := values[e := value];
    }

    lemma AtInjective(key: Key)
      requires Valid() && key in at
      ensures forall k | k in at && at[k] == at[key] :: k == key
    {
    }

    lemma AtNonnull(key: Key)
      requires Valid()
      ensures key in at ==> at[key] != NULL && at[key] in values
    {
      if key in at {
        ChainMembers(next, HeadAt(clusters, heads, Block(key)), ListOf(lists, Block(key)));
      }
    }

    lemma KeyClustered(key: Key)
      requires Valid()
      ensures key in at ==> ClusterId(key) in clusters
    {
      BlockParts(key);
      var b := Block(key);
      ChainMembers(next, HeadAt(clusters, heads, b), ListOf(lists, b));
      assert ListOf(lists, b) != [] ==> ListOf(lists, b)[0] in ListOf(lists, b);
    }

    /** Refills the free list with one batch of new entries. */
    method AllocBatch()
      requires Valid() && free == NULL
      modifies `next, `free, `freeList
      ensures Valid() && freeList != [] && Table() == old(Table())
    {
      hide Hashed;
      var batch := NewBatch(next.Keys + keys.Keys);
      var n1: map<Ptr, Ptr> := next;
      var i := 0;
      while i < ALLOC_COUNT - 1
        invariant 0 <= i <= ALLOC_COUNT - 1
        invariant forall x | x in next :: x in n1 && n1[x] == next[x]
        invariant forall x | batch <= x < batch + i :: x in n1 && n1[x] == x + 1
        invariant forall x | x in n1 :: x in next || batch <= x < batch + i
      {
        n1 := n1[batch + i := batch + i + 1];
        i := i + 1;
      }
      n1 := n1[batch + ALLOC_COUNT - 1 := free];
      BatchEntered(clusters, heads, next, n1, keys, lists, at, free, freeList, batch);
      next, free := n1, batch;
      freeList := Run(batch, ALLOC_COUNT);
    }

    /** Adds or replaces the value of `key`. */
    method Insert(key: Key, value: V)
      requires Valid()
      modifies this
      ensures Valid() && Table() == old(Table())[key := value]
    {
      hide Hashed, Entered;
      ghost var t := Table();
      var c := FindCluster(key);
      ghost var i;
      var e, before;
      e, before, i := SearchBlock(c, key);
      AtNonnull(key);
      if e != NULL {
        SetValue(e, key, value);
        return;
      }
      if free == NULL {
        AllocBatch();
      }
      FreeHead();
      InsertNew(c, key, value);
    }

    /** The end of Insert: the first free entry goes in front of its block list. */
    method InsertNew(c: Ptr, key: Key, value: V)
      requires Valid() && key !in at && freeList != [] && ClusterId(key) in clusters && c == clusters[ClusterId(key)]
      modifies `next, `free, `keys, `values, `heads, `lists, `at, `freeList
      ensures Valid() && Table() == old(Table())[key := value]
    {
      hide Hashed, Entered, Block, BlockID, ClusterId, ListOf, HeadAt, TableOf, Valued;
      FreeHead();
      TableAdd(at, values, key, free, value);
      NewEntry(clusters, heads, next, keys, lists, at, free, freeList, clusterId, key);
      HeadSlot(clusters, heads, key);
      var e := free;
      free := next[e];
      keys := keys[e := key];
      values := values[e := value];
      next := next[e := Slot(heads, c, BlockID(key))];
      heads := heads[(c, BlockID(key)) := e];
      lists := lists[Block(key) := [e] + ListOf(lists, Block(key))];
      at := at[key := e];
      freeList := freeList[1..];
    }

    lemma FreeHead()
      requires Valid() && (free != NULL || freeList != [])
      ensures freeList != [] && free == freeList[0] && free in next
      ensures forall k | k in at :: at[k] != free
      ensures forall id | id in clusters :: clusters[id] in clusterId && clusterId[clusters[id]] == id
    {
      ChainMembers(next, free, freeList);
    }

    /** Removes the entry of `key`, if there is one, and returns its value. */
    method FindAndRemove(key: Key, default: V) returns (found: bool, removed: V)
      requires Valid()
      modifies `next, `heads, `free, `lists, `freeList, `at
      ensures Valid() && Table() == old(Table()) - {key}
      ensures found <==> key in old(Table())
      ensures found ==> removed == old(Table())[key]
    {
      hide Hashed, Entered;
      found, removed := false, default;
      KeyClustered(key);
      AtNonnull(key);
      var c := LookupCluster(key);
      if c == NULL {
        return;
      }
      ghost var i;
      var e, before;
      e, before, i := SearchBlock(c, key);
      if e == NULL {
        return;
      }
      found, removed := true, values[e];
      Unlink(c, key, e, before, i);
    }

    /** The end of FindAndRemove: entry `e` moves to the free list. */
    method Unlink(c: Ptr, ghost key: Key, e: Ptr, before: Ptr, ghost i: nat)
      requires Valid() && key in at && e == at[key] && ClusterId(key) in clusters && c == clusters[ClusterId(key)]
      requires At(ListOf(lists, Block(key)), i, e, before)
      modifies `next, `heads, `free, `lists, `freeList, `at
      ensures Valid() && Table() == old(Table()) - {key}
    {
      hide Hashed, Entered, Block, BlockID, ClusterId, ListOf, HeadAt, TableOf, Valued;
      TableDrop(at, values, key);
      ClustersInjective();
      OldEntry(clusters, heads, next, keys, lists, at, free, freeList, clusterId, key, before, i);
      BlockKnown(key);
      if before == NULL {
        heads := heads[(c, BlockID(keys[e])) := next[e]];
      } else {
        next := next[before := next[e]];
      }
      next := next[e := free];
      free := e;
      lists := lists[Block(key) := Dropped(ListOf(lists, Block(key)), i)];
      freeList := [e] + freeList;
      at := at - {key};
    }

    lemma BlockKnown(key: Key)
      requires Valid() && key in at
      ensures at[key] in keys && keys[at[key]] == key
    {
    }

    lemma ClustersInjective()
      requires Valid()
      ensures forall id | id in clusters :: clusters[id] in clusterId && clusterId[clusters[id]] == id
    {
    }

    // ----- searching for the range around an address

    /** The scan of one block in FindInside: `hit` is an entry whose range holds
        `key`, or NULL; otherwise `smaller` tells if any key was not above. */
    method ScanBlock(sizes: V -> nat, c: Ptr, num: nat, key: Key) returns (hit: Ptr, smaller: bool)
      requires Valid() && ClusterId(num) in clusters && c == clusters[ClusterId(num)]
      ensures hit != NULL ==> hit in keys && keys[hit] in at && at[keys[hit]] == hit && Block(keys[hit]) == Block(num)
      ensures hit != NULL ==> InRange(Sizes(sizes, Table()), key, keys[hit])
      ensures hit == NULL ==> forall k | k in at && Block(k) == Block(num) :: !InRange(Sizes(sizes, Table()), key, k)
      ensures hit == NULL ==> (smaller <==> exists k :: k in at && Block(k) == Block(num) && k <= key)
    {
      hide Hashed, HashInt, TableOf, Valued, InRange, Sizes, ListOf;
      BlockParts(num);
      ghost var xs := ListOf(lists, Block(num));
      var e := Slot(heads, c, BlockID(num));
      smaller, hit := false, NULL;
      ghost var i := 0;
      assert Chain(next, HeadAt(clusters, heads, Block(num)), xs);
      assert xs != [] ==> Linked(next, xs, 0);
      while e != NULL
        invariant i <= |xs| && e == (if i < |xs| then xs[i] else NULL)
        invariant e == NULL <==> i == |xs|
        invariant forall j | 0 <= j < i :: xs[j] in keys && keys[xs[j]] in at && !InRange(Sizes(sizes, Table()), key, keys[xs[j]])
        invariant smaller <==> exists j :: 0 <= j < i && xs[j] in keys && keys[xs[j]] <= key
        decreases |xs| - i
      {
        assert Linked(next, xs, i);
        assert xs[i] in xs && Holds(keys, at, Block(num), xs[i]);
        RangeAt(sizes, key, keys[e]);
        if keys[e] <= key {
          if keys[e] == key || key < keys[e] + sizes(values[e]) {
            hit := e;
            return;
          }
          smaller := true;
        }
        assert i + 1 < |xs| ==> Linked(next, xs, i + 1);
        e, i := next[e], i + 1;
      }
      forall k | k in at && Block(k) == Block(num)
        ensures !InRange(Sizes(sizes, Table()), key, k) && (k <= key ==> smaller)
      {
        var j :| 0 <= j < |xs| && xs[j] == at[k];
      }
      if smaller {
        ghost var j :| 0 <= j < |xs| && xs[j] in keys && keys[xs[j]] <= key;
        assert xs[j] in xs && Holds(keys, at, Block(num), xs[j]);
      }
    }

    lemma RangeAt(sizes: V -> nat, key: Key, k: Key)
      requires Valid() && k in at
      ensures at[k] in values
      ensures InRange(Sizes(sizes, Table()), key, k) <==> k <= key && (k == key || key < k + sizes(values[at[k]]))
    {
    }

    /** The entry of the range that holds `key`, found by walking backwards over
        blocks and clusters. Only a range within reach of `maxSize` is found. */
    method FindInside(sizes: V -> nat, maxSize: nat, key: Key) returns (e: Ptr)
      requires Valid()
      ensures e != NULL ==> e in keys && keys[e] in at && at[keys[e]] == e
      ensures e != NULL ==> InRange(Sizes(sizes, Table()), key, keys[e])
      ensures Apart(Sizes(sizes, Table())) && e != NULL ==> Near(maxSize, key, keys[e])
      ensures Apart(Sizes(sizes, Table())) && e == NULL ==>
                forall k: Key | InRange(Sizes(sizes, Table()), key, k) :: !Near(maxSize, key, k)
    {
      hide Hashed, Entered, TableOf, Valued, HashInt, InRange, Apart, Near, Reached, Stepped;
      TableKeys();
      var num: nat := key;
      ReachedFirst(at, maxSize, key);
      while true
        invariant Reached(at, maxSize, key, num)
        decreases num
      {
        var c := LookupCluster(num);
        if c == NULL {
          MissingCluster(num);
        } else {
          while true
            invariant Reached(at, maxSize, key, num)
            invariant ClusterId(num) in clusters && c == clusters[ClusterId(num)]
            decreases num
          {
            var smaller;
            e, smaller := ScanBlock(sizes, c, num, key);
            if e != NULL {
              ReachedNear(at, maxSize, key, num, keys[e]);
              return;
            }
            if smaller {
              SmallerStops(Sizes(sizes, Table()), at, maxSize, key, num);
              return;
            }
            if BlockID(num) == 0 {
              break;
            }
            PreviousBlock(at, maxSize, key, num);
            num := LastOf(Block(num)) - 128;
            if key - num > maxSize {
              TooFar(Sizes(sizes, Table()), at, maxSize, key, num);
              return NULL;
            }
            ReachedNext(at, maxSize, key, num);
          }
        }
        if num < 1048576 {
          FirstCluster(Sizes(sizes, Table()), at, maxSize, key, num);
          return NULL;
        }
        PreviousCluster(at, maxSize, key, num);
        num := ClusterId(num) * 1048576 - 1;
        if key - num > maxSize {
          TooFar(Sizes(sizes, Table()), at, maxSize, key, num);
          return NULL;
        }
        ReachedNext(at, maxSize, key, num);
      }
    }

    // ----- iteration

    /** The calls made for one block: one for each entry of its list. */
    method VisitBlock(c: Ptr, ghost id: nat, b: nat) returns (ks: seq<Key>, es: seq<Ptr>)
      requires Valid() && id in clusters && c == clusters[id] && b < CLUSTER_BLOCKS
      ensures Logged(at, ks, es) && Covers(ks, at.Keys, (k: Key) => Block(k) == id * CLUSTER_BLOCKS + b)
    {
      hide Hashed, HashInt, Covers, TableOf, Valued, Logged;
      ghost var d := id * CLUSTER_BLOCKS + b;
      ghost var xs := ListOf(lists, d);
      ks, es := [], [];
      var e := Slot(heads, c, b);
      assert d / CLUSTER_BLOCKS == id && d % CLUSTER_BLOCKS == b;
      assert Chain(next, HeadAt(clusters, heads, d), xs);
      ChainDistinct(next, HeadAt(clusters, heads, d), xs);
      assert xs != [] ==> Linked(next, xs, 0);
      while e != NULL
        invariant |ks| == |es| <= |xs| && e == (if |ks| < |xs| then xs[|ks|] else NULL)
        invariant e == NULL <==> |ks| == |xs|
        invariant forall j | 0 <= j < |ks| :: ks[j] in at && at[ks[j]] == xs[j] == es[j] && Block(ks[j]) == d
        decreases |xs| - |ks|
      {
        assert Linked(next, xs, |ks|);
        assert xs[|ks|] in xs && Holds(keys, at, d, xs[|ks|]);
        assert |ks| + 1 < |xs| ==> Linked(next, xs, |ks| + 1);
        ks, es, e := ks + [keys[e]], es + [e], next[e];
      }
      LoggedAt(at, ks, es);
      forall j, k | k in at && 0 <= j < |xs| && at[k] == xs[j] ensures k == ks[j] { AtInjective(k); }
      CoversList(ks, xs, at, d);
    }

    /** The calls made for one cluster. */
    method VisitCluster(c: Ptr, ghost id: nat) returns (ks: seq<Key>, es: seq<Ptr>)
      requires Valid() && id in clusters && c == clusters[id]
      ensures Logged(at, ks, es) && Covers(ks, at.Keys, (k: Key) => ClusterId(k) == id)
    {
      hide Valid, TableOf, Covers, Block, ClusterId;
      ks, es := [], [];
      var b := 0;
      CoversNone(at.Keys, (k: Key) => id * CLUSTER_BLOCKS <= Block(k) < id * CLUSTER_BLOCKS + b);
      while b < CLUSTER_BLOCKS
        invariant b <= CLUSTER_BLOCKS && Logged(at, ks, es)
        invariant Covers(ks, at.Keys, (k: Key) => id * CLUSTER_BLOCKS <= Block(k) < id * CLUSTER_BLOCKS + b)
      {
        var ks1, es1 := VisitBlock(c, id, b);
        CoversJoin(ks, ks1, at.Keys, (k: Key) => id * CLUSTER_BLOCKS <= Block(k) < id * CLUSTER_BLOCKS + b,
                   (k: Key) => Block(k) == id * CLUSTER_BLOCKS + b,
                   (k: Key) => id * CLUSTER_BLOCKS <= Block(k) < id * CLUSTER_BLOCKS + (b + 1));
        ks, es, b := ks + ks1, es + es1, b + 1;
      }
      ClusterBlocks(id);
      CoversSame(ks, at.Keys, (k: Key) => id * CLUSTER_BLOCKS <= Block(k) < id * CLUSTER_BLOCKS + b, (k: Key) => ClusterId(k) == id);
    }

    /** The calls made for one hash chain of clusters. */
    method VisitBucket(h: nat) returns (ks: seq<Key>, es: seq<Ptr>)
      requires Valid() && h < HASH_SIZE
      ensures Logged(at, ks, es) && Covers(ks, at.Keys, (k: Key) => HashInt(ClusterId(k)) == h)
    {
      hide Entered, TableOf, Valued, Covers, ClusterId, HashInt;
      ks, es := [], [];
      ghost var xs := chains[h];
      ghost var i, done: set<nat> := 0, {};
      var c := hashtable[h];
      ChainDistinct(clusterNext, hashtable[h], xs);
      CoversNone(at.Keys, (k: Key) => ClusterId(k) in done);
      assert xs != [] ==> Linked(clusterNext, xs, 0);
      while c != NULL
        invariant i <= |xs| && c == (if i < |xs| then xs[i] else NULL)
        invariant c == NULL <==> i == |xs|
        invariant forall id :: id in done <==> id in clusters && clusters[id] in xs[..i]
        invariant Logged(at, ks, es) && Covers(ks, at.Keys, (k: Key) => ClusterId(k) in done)
        decreases |xs| - i
      {
        assert InBucket(clusterId, clusters, h, xs[i]);
        assert Linked(clusterNext, xs, i);
        assert i + 1 < |xs| ==> Linked(clusterNext, xs, i + 1);
        ghost var id := clusterId[c];
        var ks1, es1 := VisitCluster(c, id);
        CoversJoin(ks, ks1, at.Keys, (k: Key) => ClusterId(k) in done, (k: Key) => ClusterId(k) == id, (k: Key) => ClusterId(k) in done + {id});
        done := done + {id};
        ks, es, c, i := ks + ks1, es + es1, clusterNext[c], i + 1;
      }
      forall k | k in at.Keys ensures ClusterId(k) in done <==> HashInt(ClusterId(k)) == h {
        TableKeys();
        KeyClustered(k);
        if ClusterId(k) in done { assert InBucket(clusterId, clusters, h, clusters[ClusterId(k)]); }
      }
      CoversSame(ks, at.Keys, (k: Key) => ClusterId(k) in done, (k: Key) => HashInt(ClusterId(k)) == h);
    }

    /** Iterate calls back once for each key of the table, with that key's entry,
        and for nothing else. */
    method Iterate() returns (ks: seq<Key>, es: seq<Ptr>)
      requires Valid()
      ensures NoDup(ks) && |ks| == |es| && forall k: Key :: k in ks <==> k in Table()
      ensures at.Keys == Table().Keys && forall i | 0 <= i < |ks| :: ks[i] in at && es[i] == at[ks[i]]
    {
      hide Valid, TableOf, ClusterId, HashInt, Logged, Covers;
      ks, es := [], [];
      var h := 0;
      LoggedNone(at);
      CoversNone(at.Keys, (k: Key) => HashInt(ClusterId(k)) < h);
      while h < HASH_SIZE
        invariant h <= HASH_SIZE && Logged(at, ks, es) && Covers(ks, at.Keys, (k: Key) => HashInt(ClusterId(k)) < h)
      {
        var ks1, es1 := VisitBucket(h);
        CoversJoin(ks, ks1, at.Keys, (k: Key) => HashInt(ClusterId(k)) < h, (k: Key) => HashInt(ClusterId(k)) == h,
                   (k: Key) => HashInt(ClusterId(k)) < h + 1);
        LoggedJoin(at, ks, es, ks1, es1);
        ks, es, h := ks + ks1, es + es1, h + 1;
      }
      TableKeys();
      Complete(at, ks, es, (k: Key) => HashInt(ClusterId(k)) < h);
    }

    lemma TableAt(key: Key)
      requires Valid() && key in at
      ensures key in Table() && at[key] in values && Table()[key] == values[at[key]]
    {
    }

    lemma TableKeys()
      requires Valid()
      ensures Table().Keys == at.Keys
    {
    }

    lemma MissingCluster(num: Key)
      requires Valid() && ClusterId(num) !in clusters
      ensures forall k | k in at :: ClusterId(k) != ClusterId(num)
    {
      forall k | k in at ensures ClusterId(k) in clusters {
        KeyClustered(k);
      }
    }
  }

  /** The search has come down to `num`: every key that is not above `key` lies
      in the block of `num` or below it. */
  ghost predicate Reached(at: map<Key, Ptr>, maxSize: nat, key: Key, num: Key) {
    && num <= key
    && (num == key || num == LastOf(Block(num)))
    && (Block(num) == Block(key) || key - num <= maxSize)
    && (forall k | k in at && k <= key :: Block(k) <= Block(num))
  }

  /** As Reached, when the distance has not been compared with the limit yet. */
  ghost predicate Stepped(at: map<Key, Ptr>, key: Key, num: Key) {
    && num < key && Block(num) < Block(key) && num == LastOf(Block(num))
    && (forall k | k in at && k <= key :: Block(k) <= Block(num))
  }

  lemma ReachedFirst(at: map<Key, Ptr>, maxSize: nat, key: Key)
    ensures Reached(at, maxSize, key, key)
  {
  }

  lemma ReachedNext(at: map<Key, Ptr>, maxSize: nat, key: Key, num: Key)
    requires Stepped(at, key, num) && key - num <= maxSize
    ensures Reached(at, maxSize, key, num)
  {
  }

  lemma PreviousBlock(at: map<Key, Ptr>, maxSize: nat, key: Key, num: Key)
    requires Reached(at, maxSize, key, num) && BlockID(num) != 0
    requires forall k | k in at && k <= key :: Block(k) != Block(num)
    ensures LastOf(Block(num)) >= 128
    ensures Stepped(at, key, LastOf(Block(num)) - 128) && LastOf(Block(num)) - 128 < num
    ensures ClusterId(LastOf(Block(num)) - 128) == ClusterId(num)
  {
    assert Block(LastOf(Block(num)) - 128) == Block(num) - 1;
  }

  lemma PreviousCluster(at: map<Key, Ptr>, maxSize: nat, key: Key, num: Key)
    requires Reached(at, maxSize, key, num) && num >= 1048576
    requires (forall k | k in at :: ClusterId(k) != ClusterId(num))
             || (BlockID(num) == 0 && forall k | k in at && k <= key :: Block(k) != Block(num))
    ensures ClusterId(num) * 1048576 >= 1
    ensures Stepped(at, key, ClusterId(num) * 1048576 - 1) && ClusterId(num) * 1048576 - 1 < num
  {
    var n1 := ClusterId(num) * 1048576 - 1;
    assert Block(n1) == ClusterId(num) * CLUSTER_BLOCKS - 1;
    forall k | k in at && k <= key ensures Block(k) <= Block(n1) {
      BlockParts(k);
      BlockParts(num);
    }
  }

  lemma ReachedNear(at: map<Key, Ptr>, maxSize: nat, key: Key, num: Key, k: Key)
    requires Reached(at, maxSize, key, num) && Block(k) == Block(num)
    ensures Near(maxSize, key, k)
  {
  }

  /** A key in the same block that is not above, but whose range ends before
      `key`, separates it from every range that starts lower. */
  lemma SmallerStops(bytes: map<Key, nat>, at: map<Key, Ptr>, maxSize: nat, key: Key, num: Key)
    requires Reached(at, maxSize, key, num) && bytes.Keys == at.Keys
    requires forall k | k in at && Block(k) == Block(num) :: !InRange(bytes, key, k)
    requires exists k :: k in at && Block(k) == Block(num) && k <= key
    ensures Apart(bytes) ==> forall k: Key :: !InRange(bytes, key, k)
  {
    var k0 :| k0 in at && Block(k0) == Block(num) && k0 <= key;
    if Apart(bytes) {
      forall k: Key ensures !InRange(bytes, key, k) {
        if k in at && k <= key && Block(k) < Block(num) { assert k + bytes[k] <= k0; }
      }
    }
  }

  lemma TooFar(bytes: map<Key, nat>, at: map<Key, Ptr>, maxSize: nat, key: Key, num: Key)
    requires Stepped(at, key, num) && key - num > maxSize && bytes.Keys == at.Keys
    ensures forall k: Key | InRange(bytes, key, k) :: !Near(maxSize, key, k)
  {
  }

  lemma FirstCluster(bytes: map<Key, nat>, at: map<Key, Ptr>, maxSize: nat, key: Key, num: Key)
    requires num < 1048576 && bytes.Keys == at.Keys && Reached(at, maxSize, key, num)
    requires (forall k | k in at :: ClusterId(k) != ClusterId(num))
             || (BlockID(num) == 0 && forall k | k in at && k <= key :: Block(k) != Block(num))
    ensures forall k: Key :: !InRange(bytes, key, k)
  {
    forall k: Key ensures !InRange(bytes, key, k) {
      if k in at && k <= key { BlockParts(k); BlockParts(num); }
    }
  }

  // ----- iteration

  /** The log of calls `ks`, `es` pairs keys with their entries. */
  ghost predicate Logged(at: map<Key, Ptr>, ks: seq<Key>, es: seq<Ptr>) {
    |ks| == |es| && forall i | 0 <= i < |ks| :: ks[i] in at && es[i] == at[ks[i]]
  }

  lemma LoggedNone(at: map<Key, Ptr>)
    ensures Logged(at, [], [])
  {
  }

  lemma LoggedAt(at: map<Key, Ptr>, ks: seq<Key>, es: seq<Ptr>)
    requires |ks| == |es| && forall j | 0 <= j < |ks| :: ks[j] in at && at[ks[j]] == es[j]
    ensures Logged(at, ks, es)
  {
  }

  lemma LoggedJoin(at: map<Key, Ptr>, ks: seq<Key>, es: seq<Ptr>, ks1: seq<Key>, es1: seq<Ptr>)
    requires Logged(at, ks, es) && Logged(at, ks1, es1)
    ensures Logged(at, ks + ks1, es + es1)
  {
  }

  lemma Complete(at: map<Key, Ptr>, ks: seq<Key>, es: seq<Ptr>, part: Key -> bool)
    requires Logged(at, ks, es) && Covers(ks, at.Keys, part) && forall k | k in at :: part(k)
    ensures NoDup(ks) && |ks| == |es| && forall i | 0 <= i < |ks| :: ks[i] in at && es[i] == at[ks[i]]
    ensures forall k: Key :: k in ks <==> k in at
  {
  }

  /** `ks` lists the members of `domain` that satisfy `part`, each once. */
  ghost predicate Covers(ks: seq<Key>, domain: set<Key>, part: Key -> bool) {
    NoDup(ks) && forall k: Key :: k in ks <==> k in domain && part(k)
  }

  lemma CoversNone(domain: set<Key>, part: Key -> bool)
    requires forall k | k in domain :: !part(k)
    ensures Covers([], domain, part)
  {
  }

  lemma CoversList(ks: seq<Key>, xs: seq<Ptr>, at: map<Key, Ptr>, b: nat)
    requires |ks| == |xs| && NoDup(xs)
    requires forall j | 0 <= j < |ks| :: ks[j] in at && at[ks[j]] == xs[j] && Block(ks[j]) == b
    requires forall k | k in at && Block(k) == b :: at[k] in xs
    requires forall j, k | k in at && 0 <= j < |xs| && at[k] == xs[j] :: k == ks[j]
    ensures Covers(ks, at.Keys, (k: Key) => Block(k) == b)
  {
    forall k: Key | k in at && Block(k) == b ensures k in ks {
      var j :| 0 <= j < |xs| && xs[j] == at[k];
    }
  }

  lemma CoversJoin(xs: seq<Key>, ys: seq<Key>, domain: set<Key>, p: Key -> bool, q: Key -> bool, r: Key -> bool)
    requires Covers(xs, domain, p) && Covers(ys, domain, q)
    requires forall k | k in domain :: !(p(k) && q(k)) && (r(k) <==> p(k) || q(k))
    ensures Covers(xs + ys, domain, r)
  {
    forall i, j | 0 <= i < |xs| && 0 <= j < |ys| ensures xs[i] != ys[j] {
      assert xs[i] in xs && ys[j] in ys;
    }
  }

  lemma CoversSame(ks: seq<Key>, domain: set<Key>, p: Key -> bool, q: Key -> bool)
    requires Covers(ks, domain, p) && forall k | k in domain :: p(k) <==> q(k)
    ensures Covers(ks, domain, q)
  {
  }

  lemma ClusterBlocks(id: nat)
    ensures forall k: Key :: ClusterId(k) == id <==> id * CLUSTER_BLOCKS <= Block(k) < id * CLUSTER_BLOCKS + CLUSTER_BLOCKS
  {
  }

  // ----- ranges

  /** The length of the range that starts at each key. */
  ghost function Sizes<V>(sizes: V -> nat, table: map<Key, V>): map<Key, nat> {
    map k | k in table :: sizes(table[k])
  }

  /** `key` lies in the range that starts at `k`, or exactly at its start. */
  ghost predicate InRange(bytes: map<Key, nat>, key: Key, k: Key) {
    k in bytes && k <= key && (k == key || key < k + bytes[k])
  }

  /** The ranges do not overlap, and an empty one lies in no other. */
  ghost predicate Apart(bytes: map<Key, nat>) {
    forall a, b | a in bytes && b in bytes && a < b :: a + bytes[a] <= b
  }

  /** How far back the search goes: to the block of `key` itself, and to blocks
      whose last address is at most `maxSize` below it. */
  ghost predicate Near(maxSize: nat, key: Key, k: Key) {
    Block(k) == Block(key) || key - LastOf(Block(k)) <= maxSize
  }

  /** In particular every start at most `maxSize` below `key` is within reach. */
  lemma WithinReach(maxSize: nat, key: Key, k: Key)
    requires k <= key <= k + maxSize
    ensures Near(maxSize, key, k)
  {
  }

  function LastOf(b: nat): Key { b * 128 + 127 }

  lemma HeadSlot(clusters: map<nat, Ptr>, heads: map<(Ptr, nat), Ptr>, key: Key)
    requires ClusterId(key) in clusters
    ensures HeadAt(clusters, heads, Block(key)) == Slot(heads, clusters[ClusterId(key)], BlockID(key))
  {
    BlockParts(key);
  }

  /** `e` is member `i` of the list, and `before` the one in front of it. */
  ghost predicate At(xs: seq<Ptr>, i: nat, e: Ptr, before: Ptr) {
    i < |xs| && xs[i] == e && before == if i == 0 then NULL else xs[i - 1]
  }

  function Dropped(xs: seq<Ptr>, i: nat): seq<Ptr>
    requires i < |xs|
  {
    xs[..i] + xs[i + 1..]
  }

  function Run(start: Ptr, n: nat): seq<Ptr> {
    seq(n, i requires i >= 0 => start + i)
  }

  ghost predicate Unused(p: Ptr, used: set<Ptr>) {
    p != NULL && forall x | p <= x < p + ALLOC_COUNT :: x !in used
  }

  /** The first of ALLOC_COUNT new entries. */
  method NewBatch(used: set<Ptr>) returns (p: Ptr)
    ensures Unused(p, used)
  {
    ghost var b := Above(used);
    p := NULL + 1;
    while !(forall x | p <= x < p + ALLOC_COUNT :: x !in used)
      invariant p <= b + 1 && p != NULL
      decreases b + 1 - p
    {
      p := p + 1;
    }
  }

  lemma BatchEntered(clusters: map<nat, Ptr>, heads: map<(Ptr, nat), Ptr>, next: map<Ptr, Ptr>, next1: map<Ptr, Ptr>,
                     keys: map<Ptr, Key>, lists: map<nat, seq<Ptr>>, at: map<Key, Ptr>,
                     free: Ptr, freeList: seq<Ptr>, batch: Ptr)
    requires Entered(clusters, heads, next, keys, lists, at, free, freeList) && free == NULL
    requires Unused(batch, next.Keys + keys.Keys)
    requires forall x | x in next :: x in next1 && next1[x] == next[x]
    requires forall x | batch <= x < batch + ALLOC_COUNT - 1 :: x in next1 && next1[x] == x + 1
    requires batch + ALLOC_COUNT - 1 in next1 && next1[batch + ALLOC_COUNT - 1] == NULL
    ensures Entered(clusters, heads, next1, keys, lists, at, batch, Run(batch, ALLOC_COUNT))
    ensures Run(batch, ALLOC_COUNT) != []
  {
    var xs := Run(batch, ALLOC_COUNT);
    forall i | 0 <= i < |xs| ensures Linked(next1, xs, i) {
      assert xs[i] == batch + i;
    }
    forall b: nat ensures Chain(next1, HeadAt(clusters, heads, b), ListOf(lists, b)) {
      ChainMembers(next, HeadAt(clusters, heads, b), ListOf(lists, b));
      ChainFrame(next, next1, HeadAt(clusters, heads, b), ListOf(lists, b));
    }
  }

  /** The first free entry becomes the first entry of its block. */
  lemma NewEntry(clusters: map<nat, Ptr>, heads: map<(Ptr, nat), Ptr>, next: map<Ptr, Ptr>,
                 keys: map<Ptr, Key>, lists: map<nat, seq<Ptr>>, at: map<Key, Ptr>,
                 free: Ptr, freeList: seq<Ptr>, clusterId: map<Ptr, nat>, key: Key)
    requires Entered(clusters, heads, next, keys, lists, at, free, freeList) && freeList != [] && key !in at
    requires forall id | id in clusters :: clusters[id] in clusterId && clusterId[clusters[id]] == id
    requires ClusterId(key) in clusters
    ensures free in next
    ensures var b := Block(key);
            Entered(clusters, heads[(clusters[ClusterId(key)], BlockID(key)) := free],
                    next[free := HeadAt(clusters, heads, b)], keys[free := key],
                    lists[b := [free] + ListOf(lists, b)], at[key := free], next[free], freeList[1..])
  {
    hide Chain;
    var b, c := Block(key), clusters[ClusterId(key)];
    var heads1, next1 := heads[(c, BlockID(key)) := free], next[free := HeadAt(clusters, heads, b)];
    var keys1, lists1, at1 := keys[free := key], lists[b := [free] + ListOf(lists, b)], at[key := free];
    BlockParts(key);
    ChainTail(next, free, freeList);
    FreeFirst(next, free, freeList);
    forall d: nat ensures Chain(next1, HeadAt(clusters, heads1, d), ListOf(lists1, d)) {
      assert forall e | e in ListOf(lists, d) :: Holds(keys, at, d, e) && e != free;
      ChainMembers(next, HeadAt(clusters, heads, d), ListOf(lists, d));
      if d == b {
        ChainCons(next, HeadAt(clusters, heads, b), ListOf(lists, b), free);
      } else {
        OtherHead(clusters, clusterId, heads, key, d, free);
        ChainFrame(next, next1, HeadAt(clusters, heads, d), ListOf(lists, d));
      }
    }
    ChainFrame(next, next1, next[free], freeList[1..]);
    forall d: nat, e | e in ListOf(lists1, d) ensures Holds(keys1, at1, d, e) {
      if d != b || e != free { assert e in ListOf(lists, d) && Holds(keys, at, d, e); }
    }
  }

  lemma FreeFirst(next: map<Ptr, Ptr>, free: Ptr, freeList: seq<Ptr>)
    requires Chain(next, free, freeList) && freeList != []
    ensures free == freeList[0] && free !in freeList[1..] && forall x | x in freeList :: x in next
  {
    ChainDistinct(next, free, freeList);
    ChainMembers(next, free, freeList);
  }

  lemma OtherHead(clusters: map<nat, Ptr>, clusterId: map<Ptr, nat>, heads: map<(Ptr, nat), Ptr>, key: Key, d: nat, p: Ptr)
    requires forall id | id in clusters :: clusters[id] in clusterId && clusterId[clusters[id]] == id
    requires ClusterId(key) in clusters && d != Block(key)
    ensures HeadAt(clusters, heads[(clusters[ClusterId(key)], BlockID(key)) := p], d) == HeadAt(clusters, heads, d)
  {
    BlockParts(key);
  }

  /** An entry is cut out of its block list and becomes the first free one. */
  lemma OldEntry(clusters: map<nat, Ptr>, heads: map<(Ptr, nat), Ptr>, next: map<Ptr, Ptr>,
                 keys: map<Ptr, Key>, lists: map<nat, seq<Ptr>>, at: map<Key, Ptr>,
                 free: Ptr, freeList: seq<Ptr>, clusterId: map<Ptr, nat>, key: Key, before: Ptr, i: nat)
    requires Entered(clusters, heads, next, keys, lists, at, free, freeList) && key in at
    requires forall id | id in clusters :: clusters[id] in clusterId && clusterId[clusters[id]] == id
    requires ClusterId(key) in clusters && At(ListOf(lists, Block(key)), i, at[key], before)
    ensures at[key] in next && (i == 0 <==> before == NULL)
    ensures var b, e := Block(key), at[key];
            var heads1 := if i == 0 then heads[(clusters[ClusterId(key)], BlockID(key)) := next[e]] else heads;
            var next1 := (if i == 0 then next else next[before := next[e]])[e := free];
            Entered(clusters, heads1, next1, keys, lists[b := Dropped(ListOf(lists, b), i)], at - {key}, e, [e] + freeList)
  {
    hide Chain;
    var b, e, c := Block(key), at[key], clusters[ClusterId(key)];
    var xs := ListOf(lists, b);
    ChainMembers(next, HeadAt(clusters, heads, b), xs);
    ChainDistinct(next, HeadAt(clusters, heads, b), xs);
    var heads1 := if i == 0 then heads[(c, BlockID(key)) := next[e]] else heads;
    var next0 := if i == 0 then next else next[before := next[e]];
    var next1 := next0[e := free];
    var lists1, at1 := lists[b := Dropped(xs, i)], at - {key};
    BlockParts(key);
    ChainMembers(next, free, freeList);
    assert i > 0 ==> before in xs && Holds(keys, at, b, before);
    ChainFrame(next, next0, free, freeList);
    ChainCons(next0, free, freeList, e);
    forall d: nat ensures Chain(next1, HeadAt(clusters, heads1, d), ListOf(lists1, d)) {
      assert forall x | x in ListOf(lists, d) :: Holds(keys, at, d, x);
      if d == b {
        ChainCut(next, HeadAt(clusters, heads, b), xs, i);
        assert HeadAt(clusters, heads1, b) == if i == 0 then next[e] else HeadAt(clusters, heads, b);
        assert forall x | x in Dropped(xs, i) :: x != e;
        ChainMembers(next0, HeadAt(clusters, heads1, b), Dropped(xs, i));
        ChainFrame(next0, next1, HeadAt(clusters, heads1, b), Dropped(xs, i));
      } else {
        if i == 0 { OtherHead(clusters, clusterId, heads, key, d, next[e]); }
        ChainMembers(next, HeadAt(clusters, heads, d), ListOf(lists, d));
        ChainFrame(next, next1, HeadAt(clusters, heads, d), ListOf(lists, d));
      }
    }
    forall d: nat, x | x in ListOf(lists1, d) ensures Holds(keys, at1, d, x) {
      assert x in ListOf(lists, d) && Holds(keys, at, d, x);
    }
    forall k | k in at1 ensures at1[k] in ListOf(lists1, Block(k)) && at1[k] !in [e] + freeList {
      assert at[k] in ListOf(lists, Block(k));
    }
  }

  method NewPointer(used: set<Ptr>) returns (p: Ptr)
    ensures p != NULL && p !in used
  {
    UnusedPointer(used);
    p :| p != NULL && p !in used;
  }

  lemma UnusedPointer(used: set<Ptr>)
    ensures exists p: Ptr :: p != NULL && p !in used
  {
    var b := Above(used);
    assert b + 1 !in used;
  }

  lemma AddCluster(hashtable: seq<Ptr>, clusterNext: map<Ptr, Ptr>, clusterId: map<Ptr, nat>,
                   chains: seq<seq<Ptr>>, clusters: map<nat, Ptr>, id: nat, c: Ptr)
    requires Hashed(hashtable, clusterNext, clusterId, chains, clusters)
    requires id !in clusters && c != NULL && c !in clusterNext && c !in clusterId
    ensures var h := HashInt(id);
            && |hashtable| == HASH_SIZE == |chains|
            && Hashed(hashtable[h := c], clusterNext[c := hashtable[h]], clusterId[c := id],
                      chains[h := [c] + chains[h]], clusters[id := c])
  {
    hide HashInt, Chain;
    var h := HashInt(id);
    var n1, ch1 := clusterNext[c := hashtable[h]], chains[h := [c] + chains[h]];
    forall g: nat | g < HASH_SIZE ensures Chain(n1, hashtable[h := c][g], ch1[g]) {
      assert forall d | d in chains[g] :: InBucket(clusterId, clusters, g, d);
      ChainMembers(clusterNext, hashtable[g], chains[g]);
      if g == h { ChainCons(clusterNext, hashtable[h], chains[h], c); }
      else { ChainFrame(clusterNext, n1, hashtable[g], chains[g]); }
    }
    forall g: nat, d | g < HASH_SIZE && d in ch1[g] ensures InBucket(clusterId[c := id], clusters[id := c], g, d) {
      if d != c { assert InBucket(clusterId, clusters, g, d); }
    }
  }

  /** A new cluster has only empty lists, so no list changes. */
  lemma NewClusterEmpty(clusters: map<nat, Ptr>, heads: map<(Ptr, nat), Ptr>, next: map<Ptr, Ptr>,
                        keys: map<Ptr, Key>, lists: map<nat, seq<Ptr>>, at: map<Key, Ptr>,
                        free: Ptr, freeList: seq<Ptr>, id: nat, c: Ptr)
    requires Entered(clusters, heads, next, keys, lists, at, free, freeList)
    requires id !in clusters && forall x | x in heads :: x.0 != c
    ensures Entered(clusters[id := c], heads, next, keys, lists, at, free, freeList)
  {
    forall b: nat ensures HeadAt(clusters[id := c], heads, b) == HeadAt(clusters, heads, b) { }
  }
}
