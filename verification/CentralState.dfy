/** The value of one central free list of central_freelist.cc, and what each of
    its critical sections makes of it. */
module CentralState {
  import opened Arithmetic
  import opened Sequences
  import opened SpanLists

  const PAGE_SIZE: nat := 8192
  const MAX_TRANSFER_ENTRIES: nat := 64
  const INITIAL_CACHE: nat := 16

  type Addr = nat
  type SpanId = nat

  /** A row of the size-class table: bytes of an object, pages of a span, and
      objects moved at a time. */
  datatype ClassInfo = ClassInfo(size: nat, pages: nat, batch: nat)

  function Capacity(i: ClassInfo): nat {
    if i.size == 0 then 0 else i.pages * PAGE_SIZE / i.size
  }

  /** `refcount` objects of the span are elsewhere, the others on its free list. */
  datatype SpanState = SpanState(refcount: nat, objects: seq<Addr>)

  /** `nonempty` and `empty` list the spans from the front; `slots` holds the
      chains in the used entries of the transfer cache. */
  datatype Central = Central(nonempty: seq<SpanId>, empty: seq<SpanId>, spans: map<SpanId, SpanState>,
                             counter: int, numSpans: int,
                             slots: seq<seq<Addr>>, cacheSize: int, maxCacheSize: int)

  // ----- the state that is kept

  /** Number of free objects on the lists of the given spans. */
  function FreeObjects(spans: map<SpanId, SpanState>, list: seq<SpanId>): nat
    requires forall sp | sp in list :: sp in spans
  {
    if list == [] then 0 else |spans[list[0]].objects| + FreeObjects(spans, list[1..])
  }

  ghost predicate OnLists(nonempty: seq<SpanId>, empty: seq<SpanId>, spans: map<SpanId, SpanState>) {
    && NoDup(nonempty) && NoDup(empty)
    && (forall sp | sp in nonempty :: sp !in empty && sp in spans && spans[sp].objects != [])
    && (forall sp | sp in empty :: sp in spans && spans[sp].objects == [])
    && (forall sp | sp in spans :: sp in nonempty || sp in empty)
  }

  ghost predicate Listed(c: Central) { OnLists(c.nonempty, c.empty, c.spans) }

  ghost predicate Referenced(i: ClassInfo, spans: map<SpanId, SpanState>) {
    forall sp | sp in spans :: spans[sp].refcount > 0 && |spans[sp].objects| + spans[sp].refcount == Capacity(i)
  }

  ghost predicate Counted(i: ClassInfo, c: Central)
    requires Listed(c)
  {
    c.counter == FreeObjects(c.spans, c.nonempty) && c.numSpans == |c.spans| && Referenced(i, c.spans)
  }

  ghost predicate Cached(i: ClassInfo, c: Central) {
    && 0 <= |c.slots| <= c.cacheSize <= c.maxCacheSize <= MAX_TRANSFER_ENTRIES
    && (forall k | 0 <= k < |c.slots| :: |c.slots[k]| == i.batch)
  }

  ghost predicate Sane(i: ClassInfo, c: Central) {
    Listed(c) && Counted(i, c) && Cached(i, c)
  }

  /** What Init asserts: a class other than 0 has objects, and moves some at a time. */
  ghost predicate Movable(cl: nat, i: ClassInfo) { cl > 0 ==> i.size > 0 && i.batch > 0 }

  /** The state after Init; class 0 has no objects and keeps the largest limit. */
  function Initial(cl: nat, i: ClassInfo): (c: Central)
    requires Movable(cl, i)
  {
    var limit := if cl == 0 then MAX_TRANSFER_ENTRIES else Min(MAX_TRANSFER_ENTRIES, Max(1, 1048576 / (i.size * i.batch)));
    Central([], [], map[], 0, 0, [], Min(INITIAL_CACHE, limit), limit)
  }

  function Min(a: int, b: int): int { if a <= b then a else b }
  function Max(a: int, b: int): int { if a >= b then a else b }

  lemma InitialSane(cl: nat, i: ClassInfo)
    requires Movable(cl, i)
    ensures Sane(i, Initial(cl, i)) && 1 <= Initial(cl, i).maxCacheSize && 0 < Initial(cl, i).cacheSize <= INITIAL_CACHE
    // the cached objects of a class take at most 1 MB, or one entry
    ensures cl > 0 ==> Initial(cl, i).maxCacheSize == 1 || Initial(cl, i).maxCacheSize * (i.size * i.batch) <= 1048576
  {
  }

  // ----- sums over the list

  lemma {:induction false} FreeObjectsFrame(spans: map<SpanId, SpanState>, spans1: map<SpanId, SpanState>, list: seq<SpanId>)
    requires forall sp | sp in list :: sp in spans && sp in spans1 && spans1[sp].objects == spans[sp].objects
    ensures FreeObjects(spans1, list) == FreeObjects(spans, list)
  {
    if list != [] {
      FreeObjectsFrame(spans, spans1, list[1..]);
    }
  }

  lemma {:induction false} FreeObjectsWithout(spans: map<SpanId, SpanState>, list: seq<SpanId>, sp: SpanId)
    requires (forall x | x in list :: x in spans) && NoDup(list) && sp in list
    ensures FreeObjects(spans, Without(list, sp)) == FreeObjects(spans, list) - |spans[sp].objects|
  {
    var rest := list[1..];
    if list[0] != sp {
      FreeObjectsWithout(spans, rest, sp);
      assert ([list[0]] + Without(rest, sp))[1..] == Without(rest, sp);
    }
  }

  lemma {:induction false} FreeObjectsUpdate(spans: map<SpanId, SpanState>, list: seq<SpanId>, sp: SpanId, x: SpanState)
    requires (forall y | y in list :: y in spans) && NoDup(list) && sp in list
    ensures FreeObjects(spans[sp := x], list) == FreeObjects(spans, list) - |spans[sp].objects| + |x.objects|
  {
    if list[0] == sp {
      FreeObjectsFrame(spans, spans[sp := x], list[1..]);
    } else {
      FreeObjectsUpdate(spans, list[1..], sp, x);
    }
  }

  // ----- ReleaseToSpans

  /** The span takes an object back; if it was empty it moves to the nonempty list. */
  function Refilled(c: Central, sp: SpanId): Central
    requires sp in c.spans
  {
    if c.spans[sp].objects == [] then c.(empty := Without(c.empty, sp), nonempty := [sp] + c.nonempty) else c
  }

  function ReleasedObject(c: Central, sp: SpanId, o: Addr): Central
    requires sp in c.spans && c.spans[sp].refcount > 1
  {
    var x := c.spans[sp];
    Refilled(c, sp).(counter := c.counter + 1, spans := c.spans[sp := SpanState(x.refcount - 1, [o] + x.objects)])
  }

  /** The last object came back: the whole span leaves. */
  function ReleasedSpan(i: ClassInfo, c: Central, sp: SpanId): Central
    requires sp in c.spans
  {
    c.(counter := c.counter + 1 - Capacity(i), numSpans := c.numSpans - 1, spans := c.spans - {sp},
       nonempty := Without(c.nonempty, sp), empty := Without(c.empty, sp))
  }

  lemma RefilledListed(c: Central, sp: SpanId, x: SpanState)
    requires Listed(c) && sp in c.spans && x.objects != []
    ensures Listed(Refilled(c, sp).(spans := c.spans[sp := x]))
  {
  }

  lemma ReleaseObject(i: ClassInfo, c: Central, sp: SpanId, o: Addr)
    requires Sane(i, c) && sp in c.spans && c.spans[sp].refcount > 1
    ensures Sane(i, ReleasedObject(c, sp, o))
  {
    var x := c.spans[sp];
    var y := SpanState(x.refcount - 1, [o] + x.objects);
    var c1 := ReleasedObject(c, sp, o);
    RefilledListed(c, sp, y);
    assert Listed(c1);
    assert c1.spans.Keys == c.spans.Keys && |c1.spans| == |c1.spans.Keys| && |c.spans| == |c.spans.Keys|;
    if x.objects == [] {
      assert c1.nonempty[1..] == c.nonempty;
      FreeObjectsFrame(c.spans, c1.spans, c.nonempty);
    } else {
      FreeObjectsUpdate(c.spans, c.nonempty, sp, y);
    }
  }

  lemma ReleasedListed(i: ClassInfo, c: Central, sp: SpanId)
    requires Listed(c) && sp in c.spans
    ensures Listed(ReleasedSpan(i, c, sp))
  {
  }

  lemma WithoutAbsent<T>(xs: seq<T>, x: T)
    requires x !in xs
    ensures Without(xs, x) == xs
  {
    if xs != [] {
      WithoutAbsent(xs[1..], x);
    }
  }

  lemma ReleaseSpan(i: ClassInfo, c: Central, sp: SpanId)
    requires Sane(i, c) && sp in c.spans && c.spans[sp].refcount == 1
    ensures Sane(i, ReleasedSpan(i, c, sp))
  {
    var c1 := ReleasedSpan(i, c, sp);
    ReleasedListed(i, c, sp);
    assert c1.spans.Keys == c.spans.Keys - {sp} && |c1.spans| == |c1.spans.Keys| && |c.spans| == |c.spans.Keys|;
    if sp in c.nonempty { FreeObjectsWithout(c.spans, c.nonempty, sp); } else { WithoutAbsent(c.nonempty, sp); }
    FreeObjectsFrame(c.spans, c1.spans, c1.nonempty);
  }

  // ----- FetchFromOneSpans

  /** What a request for `n` objects gets from the first nonempty span. */
  function Grab(c: Central, n: nat): seq<Addr> {
    if c.nonempty == [] || c.nonempty[0] !in c.spans then []
    else
      var x := c.spans[c.nonempty[0]].objects;
      if |x| <= n then x else x[..n]
  }

  function Fetched(c: Central, n: nat): Central {
    if c.nonempty == [] || c.nonempty[0] !in c.spans then c
    else
      var sp, k := c.nonempty[0], |Grab(c, n)|;
      var x := c.spans[sp];
      var c1 := c.(counter := c.counter - k, spans := c.spans[sp := SpanState(x.refcount + k, x.objects[k..])]);
      if k == |x.objects| then c1.(nonempty := c.nonempty[1..], empty := [sp] + c.empty) else c1
  }

  lemma FetchListed(c: Central, n: nat)
    requires Listed(c)
    ensures Listed(Fetched(c, n))
  {
    if c.nonempty != [] {
      var sp, k := c.nonempty[0], |Grab(c, n)|;
      assert sp in c.nonempty;
      var x := c.spans[sp];
      FirstEmptied(c, SpanState(x.refcount + k, []));
      if k < |x.objects| { FirstShortened(c, SpanState(x.refcount + k, x.objects[k..])); }
      hide OnLists;
    }
  }

  lemma FirstEmptied(c: Central, x: SpanState)
    requires Listed(c) && c.nonempty != [] && x.objects == []
    ensures OnLists(c.nonempty[1..], [c.nonempty[0]] + c.empty, c.spans[c.nonempty[0] := x])
  {
    var sp := c.nonempty[0];
    assert sp in c.nonempty;
    assert forall y | y in c.nonempty :: y == sp || y in c.nonempty[1..];
    assert forall y | y in c.nonempty[1..] :: y != sp && y in c.nonempty;
  }

  lemma FirstShortened(c: Central, x: SpanState)
    requires Listed(c) && c.nonempty != [] && x.objects != []
    ensures OnLists(c.nonempty, c.empty, c.spans[c.nonempty[0] := x])
  {
    assert c.nonempty[0] in c.nonempty;
  }

  lemma FetchReferenced(i: ClassInfo, c: Central, n: nat)
    requires Listed(c)
    requires forall sp | sp in c.spans :: |c.spans[sp].objects| + c.spans[sp].refcount == Capacity(i)
    requires forall sp | sp in c.spans && c.spans[sp].refcount == 0 :: c.nonempty != [] && sp == c.nonempty[0] && n > 0
    ensures Referenced(i, Fetched(c, n).spans) && Fetched(c, n).spans.Keys == c.spans.Keys
  {
    hide NoDup;
    if c.nonempty != [] { assert c.nonempty[0] in c.nonempty; }
  }

  lemma FetchCounted(c: Central, n: nat)
    requires Listed(c) && c.counter == FreeObjects(c.spans, c.nonempty)
    ensures Listed(Fetched(c, n))
    ensures Fetched(c, n).counter == FreeObjects(Fetched(c, n).spans, Fetched(c, n).nonempty)
  {
    FetchListed(c, n);
    if c.nonempty != [] {
      var sp, c1 := c.nonempty[0], Fetched(c, n);
      assert sp in c.nonempty;
      assert forall x | x in c.nonempty[1..] :: x != sp && x in c.nonempty;
      FreeObjectsFrame(c.spans, c1.spans, c.nonempty[1..]);
    }
  }

  lemma Fetch(i: ClassInfo, c: Central, n: nat)
    requires Sane(i, c)
    ensures Sane(i, Fetched(c, n)) && |Grab(c, n)| <= n
    ensures n > 0 ==> (Grab(c, n) == [] <==> c.nonempty == [])
  {
    hide FreeObjects, NoDup;
    FetchCounted(c, n);
    FetchReferenced(i, c, n);
    SameSize(c.spans, Fetched(c, n).spans);
    if c.nonempty != [] { assert c.nonempty[0] in c.nonempty; }
  }

  lemma SameSize<A, B>(m: map<A, B>, m1: map<A, B>)
    requires m.Keys == m1.Keys
    ensures |m| == |m1|
  {
    assert |m| == |m.Keys| && |m1| == |m1.Keys|;
  }

  // ----- Populate

  /** The objects that a new span is cut into. */
  function Carved(i: ClassInfo, start: nat): seq<Addr> {
    seq(Capacity(i), k requires k >= 0 => start * PAGE_SIZE + k * i.size)
  }

  /** The objects are distinct and lie, whole, in the pages of the span. */
  lemma CarvedWithin(i: ClassInfo, start: nat)
    ensures |Carved(i, start)| == Capacity(i) && NoDup(Carved(i, start))
    ensures forall o | o in Carved(i, start) ::
              start * PAGE_SIZE <= o && o + i.size <= (start + i.pages) * PAGE_SIZE && start <= o / PAGE_SIZE < start + i.pages
  {
    var xs := Carved(i, start);
    forall j, k | 0 <= j < k < |xs| ensures xs[j] != xs[k] {
      ScaleUp(j + 1, k, i.size);
      assert (j + 1) * i.size == j * i.size + i.size;
    }
    forall o | o in xs ensures start * PAGE_SIZE <= o && o + i.size <= (start + i.pages) * PAGE_SIZE && start <= o / PAGE_SIZE < start + i.pages {
      var k :| 0 <= k < |xs| && xs[k] == o;
      ScaleUp(k + 1, Capacity(i), i.size);
      assert (k + 1) * i.size == k * i.size + i.size;
      assert Capacity(i) * i.size <= i.pages * PAGE_SIZE;
    }
  }

  /** A new span goes to the front of the nonempty list, with all objects free. */
  function WithSpan(i: ClassInfo, c: Central, sp: SpanId, start: nat): Central {
    c.(nonempty := [sp] + c.nonempty, spans := c.spans[sp := SpanState(0, Carved(i, start))],
       numSpans := c.numSpans + 1, counter := c.counter + Capacity(i))
  }

  /** The first fetch after Populate is served by the new span, so the span is
      not wholly free when the lock is released. */
  lemma Populated(i: ClassInfo, c: Central, sp: SpanId, start: nat, n: nat)
    requires Sane(i, c) && sp !in c.spans && Capacity(i) > 0 && n > 0
    ensures var c1 := WithSpan(i, c, sp, start);
            Sane(i, Fetched(c1, n)) && Grab(c1, n) != [] && |Grab(c1, n)| <= n
  {
    hide NoDup, FreeObjects, Carved, Capacity, Listed, OnLists, Referenced, Grab, Fetched;
    var c1 := WithSpan(i, c, sp, start);
    SpanListed(i, c, sp, start);
    FetchCounted(c1, n);
    SpanReferenced(i, c, sp, start, n);
    SameSize(c1.spans, Fetched(c1, n).spans);
    OneMore(c.spans, sp, SpanState(0, Carved(i, start)));
    FetchKeeps(c1, n);
  }

  lemma SpanReferenced(i: ClassInfo, c: Central, sp: SpanId, start: nat, n: nat)
    requires Listed(c) && Referenced(i, c.spans) && sp !in c.spans && Capacity(i) > 0 && n > 0 && Listed(WithSpan(i, c, sp, start))
    ensures var c1 := WithSpan(i, c, sp, start);
            Referenced(i, Fetched(c1, n).spans) && Fetched(c1, n).spans.Keys == c1.spans.Keys && Grab(c1, n) != [] && |Grab(c1, n)| <= n
  {
    hide NoDup, Capacity;
    FetchReferenced(i, WithSpan(i, c, sp, start), n);
  }

  /** What a fetch does not touch. */
  lemma FetchKeeps(c: Central, n: nat)
    requires Listed(c)
    ensures var c1 := Fetched(c, n);
            c1.numSpans == c.numSpans && c1.slots == c.slots && c1.cacheSize == c.cacheSize && c1.maxCacheSize == c.maxCacheSize
  {
  }

  lemma OneMore<A, B>(m: map<A, B>, a: A, b: B)
    requires a !in m
    ensures |m[a := b]| == |m| + 1
  {
    assert m[a := b].Keys == m.Keys + {a};
    assert |m[a := b]| == |m[a := b].Keys| && |m| == |m.Keys|;
  }

  lemma SpanListed(i: ClassInfo, c: Central, sp: SpanId, start: nat)
    requires Listed(c) && c.counter == FreeObjects(c.spans, c.nonempty) && sp !in c.spans && Capacity(i) > 0
    ensures var c1 := WithSpan(i, c, sp, start); Listed(c1) && c1.counter == FreeObjects(c1.spans, c1.nonempty)
    ensures |Carved(i, start)| == Capacity(i)
  {
    var c1 := WithSpan(i, c, sp, start);
    assert c1.nonempty[1..] == c.nonempty;
    FreeObjectsFrame(c.spans, c1.spans, c.nonempty);
  }

  // ----- the transfer cache

  function Pushed(c: Central, chain: seq<Addr>): Central { c.(slots := c.slots + [chain]) }

  function Popped(c: Central): Central
    requires c.slots != []
  {
    c.(slots := c.slots[..|c.slots| - 1])
  }

  function Shrunk(c: Central): Central { c.(cacheSize := c.cacheSize - 1) }

  function Grown(c: Central): Central { c.(cacheSize := c.cacheSize + 1) }

  lemma CacheChanged(i: ClassInfo, c: Central, slots: seq<seq<Addr>>, cacheSize: int)
    requires Sane(i, c) && Cached(i, c.(slots := slots, cacheSize := cacheSize))
    ensures Sane(i, c.(slots := slots, cacheSize := cacheSize))
  {
    hide OnLists, Referenced, FreeObjects, Cached;
  }

  lemma PushSlot(i: ClassInfo, c: Central, chain: seq<Addr>)
    requires Sane(i, c) && |chain| == i.batch
    ensures |c.slots| < c.cacheSize ==> Sane(i, Pushed(c, chain))
    ensures c.cacheSize < c.maxCacheSize ==> Sane(i, Pushed(Grown(c), chain))
  {
    hide OnLists, Referenced, FreeObjects;
    if |c.slots| < c.cacheSize { CacheChanged(i, c, c.slots + [chain], c.cacheSize); }
    if c.cacheSize < c.maxCacheSize { CacheChanged(i, c, c.slots + [chain], c.cacheSize + 1); }
  }

  lemma PopSlot(i: ClassInfo, c: Central)
    requires Sane(i, c)
    ensures c.slots != [] ==> Sane(i, Popped(c)) && Sane(i, Shrunk(Popped(c)))
    ensures |c.slots| < c.cacheSize ==> Sane(i, Shrunk(c))
  {
    hide OnLists, Referenced, FreeObjects;
    if c.slots != [] {
      CacheChanged(i, c, Popped(c).slots, c.cacheSize);
      CacheChanged(i, c, Popped(c).slots, c.cacheSize - 1);
    }
    if |c.slots| < c.cacheSize { CacheChanged(i, c, c.slots, c.cacheSize - 1); }
  }
}
