/** The critical sections of central_freelist.cc on the structures that the code
    uses: spans on two circular lists, objects chained through their first word,
    and an array of chains. Each is proved to be the step of CentralState. */
module CentralLists {
  import opened Arithmetic
  import opened Sequences
  import opened SpanLists
  import opened LinkedLists
  import opened CentralState

  // The dummy headers, as addresses that no span has.
  const NONEMPTY: SpanId := 0
  const EMPTY: SpanId := 1

  /** Where a free object is. */
  datatype Spot = OnList(span: SpanId) | InEntry(slot: nat)

  // ----- representation

  ghost predicate Counts(refcounts: map<SpanId, nat>, spans: map<SpanId, SpanState>) {
    refcounts.Keys == spans.Keys && forall sp | sp in spans :: refcounts[sp] == spans[sp].refcount
  }

  ghost predicate Chained(next: map<Ptr, Ptr>, heads: map<SpanId, Ptr>, spans: map<SpanId, SpanState>) {
    heads.Keys == spans.Keys && forall sp | sp in spans :: Chain(next, heads[sp], spans[sp].objects)
  }

  ghost predicate Slotted(next: map<Ptr, Ptr>, slots: seq<(Ptr, Ptr)>, chains: seq<seq<Addr>>) {
    |chains| <= |slots| && forall k | 0 <= k < |chains| :: SlotHolds(next, slots[k], chains[k])
  }

  ghost predicate SlotHolds(next: map<Ptr, Ptr>, entry: (Ptr, Ptr), xs: seq<Addr>) {
    xs != [] && Chain(next, entry.0, xs) && entry.1 == xs[|xs| - 1]
  }

  /** No object is in two places. */
  ghost predicate Kept(spans: map<SpanId, SpanState>, chains: seq<seq<Addr>>, at: map<Addr, Spot>) {
    && (forall sp, o | sp in spans && o in spans[sp].objects :: o in at && at[o] == OnList(sp))
    && (forall k, o | 0 <= k < |chains| && o in chains[k] :: o in at && at[o] == InEntry(k))
  }

  ghost predicate Represents(next: map<Ptr, Ptr>, heads: map<SpanId, Ptr>, refcounts: map<SpanId, nat>,
                             slots: seq<(Ptr, Ptr)>, at: map<Addr, Spot>, c: Central)
  {
    && Counts(refcounts, c.spans) && Chained(next, heads, c.spans) && Slotted(next, slots, c.slots)
    && Kept(c.spans, c.slots, at) && Listed(c)
  }

  /** Writes to objects of one span, or of none, disturb no other chain. */
  lemma OtherChains(next: map<Ptr, Ptr>, next1: map<Ptr, Ptr>, heads: map<SpanId, Ptr>, spans: map<SpanId, SpanState>, except: SpanId)
    requires Chained(next, heads, spans)
    requires forall sp, o | sp in spans && sp != except && o in spans[sp].objects && o in next :: o in next1 && next1[o] == next[o]
    ensures forall sp | sp in spans && sp != except :: Chain(next1, heads[sp], spans[sp].objects)
  {
    hide Chain;
    forall sp | sp in spans && sp != except ensures Chain(next1, heads[sp], spans[sp].objects) {
      ChainMembers(next, heads[sp], spans[sp].objects);
      ChainFrame(next, next1, heads[sp], spans[sp].objects);
    }
  }

  lemma OtherSlots(next: map<Ptr, Ptr>, next1: map<Ptr, Ptr>, slots: seq<(Ptr, Ptr)>, chains: seq<seq<Addr>>)
    requires Slotted(next, slots, chains)
    requires forall k, o | 0 <= k < |chains| && o in chains[k] && o in next :: o in next1 && next1[o] == next[o]
    ensures Slotted(next1, slots, chains)
  {
    hide Chain;
    forall k | 0 <= k < |chains| ensures SlotHolds(next1, slots[k], chains[k]) {
      assert SlotHolds(next, slots[k], chains[k]);
      ChainMembers(next, slots[k].0, chains[k]);
      ChainFrame(next, next1, slots[k].0, chains[k]);
    }
  }

  /** One object goes on its span's list. */
  lemma PushObject(next: map<Ptr, Ptr>, heads: map<SpanId, Ptr>, refcounts: map<SpanId, nat>, slots: seq<(Ptr, Ptr)>,
                   at: map<Addr, Spot>, c: Central, sp: SpanId, o: Addr)
    requires Represents(next, heads, refcounts, slots, at, c)
    requires sp in c.spans && c.spans[sp].refcount > 1 && o != NULL && o !in at
    ensures sp in heads && sp in refcounts && refcounts[sp] > 1
    ensures Represents(next[o := heads[sp]], heads[sp := o], refcounts[sp := refcounts[sp] - 1], slots, at[o := OnList(sp)],
                       ReleasedObject(c, sp, o))
  {
    hide Chain, OnLists;
    var next1 := next[o := heads[sp]];
    OtherChains(next, next1, heads, c.spans, sp);
    OtherSlots(next, next1, slots, c.slots);
    ChainCons(next, heads[sp], c.spans[sp].objects, o);
    RefilledListed(c, sp, SpanState(refcounts[sp] - 1, [o] + c.spans[sp].objects));
  }

  function DropAt(at: map<Addr, Spot>, xs: seq<Addr>): map<Addr, Spot> {
    at - (set o | o in xs)
  }

  /** A span leaves, with the objects on its list. */
  lemma DropSpan(next: map<Ptr, Ptr>, heads: map<SpanId, Ptr>, refcounts: map<SpanId, nat>, slots: seq<(Ptr, Ptr)>,
                 at: map<Addr, Spot>, i: ClassInfo, c: Central, sp: SpanId)
    requires Represents(next, heads, refcounts, slots, at, c) && sp in c.spans
    ensures Represents(next, heads - {sp}, refcounts - {sp}, slots, DropAt(at, c.spans[sp].objects), ReleasedSpan(i, c, sp))
  {
    hide Chain, OnLists;
    var at1, spans1 := DropAt(at, c.spans[sp].objects), c.spans - {sp};
    assert forall o | o in c.spans[sp].objects :: at[o] == OnList(sp);
    assert forall y, o | y in spans1 && o in spans1[y].objects :: o in at1 && at1[o] == OnList(y);
    assert forall k, o | 0 <= k < |c.slots| && o in c.slots[k] :: o in at1 && at1[o] == InEntry(k);
    ReleasedListed(i, c, sp);
  }

  /** The first objects of the first nonempty span are cut off. */
  lemma CutObjects(next: map<Ptr, Ptr>, heads: map<SpanId, Ptr>, refcounts: map<SpanId, nat>, slots: seq<(Ptr, Ptr)>,
                   at: map<Addr, Spot>, c: Central, n: nat)
    requires Represents(next, heads, refcounts, slots, at, c) && c.nonempty != [] && n > 0
    ensures var sp, got := c.nonempty[0], Grab(c, n);
            && sp in c.spans && sp in heads && sp in refcounts && got != [] && got[|got| - 1] in next
            && var next1 := next[got[|got| - 1] := NULL];
               && Chain(next1, heads[sp], got)
               && Represents(next1, heads[sp := next[got[|got| - 1]]], refcounts[sp := refcounts[sp] + |got|], slots, DropAt(at, got),
                             Fetched(c, n))
  {
    hide Chain, OnLists;
    FirstSpan(c);
    FetchListed(c, n);
    var sp, got := c.nonempty[0], Grab(c, n);
    var xs := c.spans[sp].objects;
    var m := |got|;
    assert got == xs[..m];
    ChainSplit(next, heads[sp], xs, m);
    ChainDistinct(next, heads[sp], xs);
    var end := xs[m - 1];
    var next1 := next[end := NULL];
    assert end in xs && at[end] == OnList(sp);
    OtherChains(next, next1, heads, c.spans, sp);
    OtherSlots(next, next1, slots, c.slots);
    CutKept(c, n, at);
  }

  lemma FirstSpan(c: Central)
    requires Listed(c) && c.nonempty != []
    ensures c.nonempty[0] in c.spans && c.spans[c.nonempty[0]].objects != []
  {
    assert c.nonempty[0] in c.nonempty;
  }

  lemma CutKept(c: Central, n: nat, at: map<Addr, Spot>)
    requires Kept(c.spans, c.slots, at) && c.nonempty != [] && c.nonempty[0] in c.spans && NoDup(c.spans[c.nonempty[0]].objects)
    ensures Kept(Fetched(c, n).spans, Fetched(c, n).slots, DropAt(at, Grab(c, n)))
  {
    hide NoDup;
    var sp, got := c.nonempty[0], Grab(c, n);
    var xs := c.spans[sp].objects;
    assert xs == got + xs[|got|..];
    RestApart(got, xs[|got|..]);
    assert forall o | o in xs :: at[o] == OnList(sp);
    assert forall o | o in got || o in xs[|got|..] :: o in xs;
  }

  lemma RestApart(xs: seq<Addr>, ys: seq<Addr>)
    requires NoDup(xs + ys)
    ensures forall o | o in ys :: o !in xs
  {
    forall i, j | 0 <= i < |xs| && 0 <= j < |ys| ensures xs[i] != ys[j] {
      assert (xs + ys)[i] != (xs + ys)[|xs| + j];
    }
  }

  /** Writes to an object that is neither on a span's list nor in a slot. */
  lemma OtherRepresents(next: map<Ptr, Ptr>, next1: map<Ptr, Ptr>, heads: map<SpanId, Ptr>, refcounts: map<SpanId, nat>,
                        slots: seq<(Ptr, Ptr)>, at: map<Addr, Spot>, c: Central, o: Addr)
    requires Represents(next, heads, refcounts, slots, at, c) && o !in at
    requires forall x | x in next && x != o :: x in next1 && next1[x] == next[x]
    ensures Represents(next1, heads, refcounts, slots, at, c)
  {
    hide Chain, Listed;
    OtherChains(next, next1, heads, c.spans, NONEMPTY);
    OtherSlots(next, next1, slots, c.slots);
    if NONEMPTY in c.spans {
      ChainMembers(next, heads[NONEMPTY], c.spans[NONEMPTY].objects);
      ChainFrame(next, next1, heads[NONEMPTY], c.spans[NONEMPTY].objects);
    }
  }

  /** A new span with all its pieces free. */
  lemma EnterSpan(next: map<Ptr, Ptr>, heads: map<SpanId, Ptr>, refcounts: map<SpanId, nat>, slots: seq<(Ptr, Ptr)>,
                  at: map<Addr, Spot>, i: ClassInfo, c: Central, sp: SpanId, start: nat, head: Ptr)
    requires Represents(next, heads, refcounts, slots, at, c) && sp !in c.spans && Capacity(i) > 0
    requires Chain(next, head, Carved(i, start)) && forall o | o in Carved(i, start) :: o !in at
    ensures Represents(next, heads[sp := head], refcounts[sp := 0], slots, AddAt(at, Carved(i, start), OnList(sp)), WithSpan(i, c, sp, start))
  {
    hide Chain, Carved, Slotted, Kept, Listed;
    EnterListed(i, c, sp, start);
    EnterKept(c, at, sp, Carved(i, start));
  }

  lemma EnterKept(c: Central, at: map<Addr, Spot>, sp: SpanId, xs: seq<Addr>)
    requires Kept(c.spans, c.slots, at) && sp !in c.spans && forall o | o in xs :: o !in at
    ensures Kept(c.spans[sp := SpanState(0, xs)], c.slots, AddAt(at, xs, OnList(sp)))
  {
  }

  lemma EnterListed(i: ClassInfo, c: Central, sp: SpanId, start: nat)
    requires Listed(c) && sp !in c.spans && Capacity(i) > 0
    ensures Listed(WithSpan(i, c, sp, start))
  {
  }

  function AddAt(at: map<Addr, Spot>, xs: seq<Addr>, p: Spot): map<Addr, Spot> {
    at + map o | o in xs :: p
  }

  lemma FillSlot(next: map<Ptr, Ptr>, heads: map<SpanId, Ptr>, refcounts: map<SpanId, nat>, slots: seq<(Ptr, Ptr)>,
                 at: map<Addr, Spot>, c: Central, entry: (Ptr, Ptr), xs: seq<Addr>)
    requires Represents(next, heads, refcounts, slots, at, c) && |c.slots| < |slots|
    requires SlotHolds(next, entry, xs) && forall o | o in xs :: o !in at
    ensures Represents(next, heads, refcounts, slots[|c.slots| := entry], AddAt(at, xs, InEntry(|c.slots|)), Pushed(c, xs))
  {
    hide SlotHolds, OnLists, Chained;
  }

  lemma EmptySlot(next: map<Ptr, Ptr>, heads: map<SpanId, Ptr>, refcounts: map<SpanId, nat>, slots: seq<(Ptr, Ptr)>,
                  at: map<Addr, Spot>, c: Central)
    requires Represents(next, heads, refcounts, slots, at, c) && c.slots != []
    ensures Represents(next, heads, refcounts, slots, DropAt(at, c.slots[|c.slots| - 1]), Popped(c))
    ensures SlotHolds(next, slots[|c.slots| - 1], c.slots[|c.slots| - 1])
  {
    hide SlotHolds, OnLists, Chained;
    var k := |c.slots| - 1;
    assert forall o | o in c.slots[k] :: at[o] == InEntry(k);
  }

  /** A span is on one of the two lists; taking it out of the other does nothing. */
  lemma OneList(c: Central, sp: SpanId)
    requires Listed(c) && sp in c.spans
    ensures c.spans[sp].objects == [] ==> sp in c.empty && Without(c.nonempty, sp) == c.nonempty && Without([sp] + c.nonempty, sp) == c.nonempty
    ensures c.spans[sp].objects != [] ==> sp in c.nonempty && Without(c.empty, sp) == c.empty
  {
    if c.spans[sp].objects == [] {
      WithoutAbsent(c.nonempty, sp);
      assert ([sp] + c.nonempty)[1..] == c.nonempty;
    } else {
      WithoutAbsent(c.empty, sp);
    }
  }

  lemma ChainEnds(next: map<Ptr, Ptr>, head: Ptr, xs: seq<Ptr>)
    requires Chain(next, head, xs)
    ensures head == NULL <==> xs == []
    ensures xs != [] ==> head == xs[0]
  {
    ChainMembers(next, head, xs);
    assert xs != [] ==> xs[0] in xs;
  }

  ghost function Lists(c: Central): map<SpanId, seq<SpanId>> {
    map[NONEMPTY := c.nonempty, EMPTY := c.empty]
  }

  class CentralFreeList {
    const info: ClassInfo
    const links: Links<SpanId>
    const memory: Memory
    const slots: array<(Ptr, Ptr)>       // tc_slots_
    var heads: map<SpanId, Ptr>          // Span::objects
    var refcounts: map<SpanId, nat>      // Span::refcount
    var counter: int
    var numSpans: int
    var usedSlots: nat
    var cacheSize: int
    var maxCacheSize: int

    ghost var value: Central             // what the fields stand for
    ghost var at: map<Addr, Spot>

    ghost predicate Valid()
      reads this, links, memory, slots
    {
      && slots.Length == MAX_TRANSFER_ENTRIES
      && counter == value.counter && numSpans == value.numSpans && usedSlots == |value.slots|
      && cacheSize == value.cacheSize && maxCacheSize == value.maxCacheSize
      && links.Valid() && links.lists == Lists(value) && NONEMPTY !in value.spans && EMPTY !in value.spans
      && Represents(memory.next, heads, refcounts, slots[..], at, value)
    }

    constructor (cl: nat, info: ClassInfo, memory: Memory)
      requires Movable(cl, info)
      ensures Valid() && value == Initial(cl, info) && this.info == info && this.memory == memory && at == map[]
      ensures fresh(links) && fresh(slots)
    {
      this.info, this.memory := info, memory;
      var l := new Links<SpanId>();
      links := l;
      slots := new (Ptr, Ptr)[MAX_TRANSFER_ENTRIES];
      heads, refcounts, counter, numSpans, usedSlots := map[], map[], 0, 0, 0;
      var limit := MAX_TRANSFER_ENTRIES;
      if cl > 0 {
        limit := Min(limit, Max(1, 1048576 / (info.size * info.batch)));
      }
      maxCacheSize, cacheSize := limit, Min(INITIAL_CACHE, limit);
      value, at := Initial(cl, info), map[];
      new;
      links.Init(NONEMPTY);
      links.Init(EMPTY);
    }

    /** What the header fields tell about one span. */
    lemma SpanAt(sp: SpanId)
      requires Valid() && sp in value.spans
      ensures sp in links.home && sp !in links.lists && sp in heads && sp in refcounts && refcounts[sp] == value.spans[sp].refcount
      ensures links.home[sp] == if value.spans[sp].objects == [] then EMPTY else NONEMPTY
      ensures heads[sp] == NULL <==> value.spans[sp].objects == []
    {
      hide Links.Valid, Homed, Slotted, Kept, Listed, Chain, NoDup;
      ListedNow();
      SpanLinked(sp);
      ChainEnds(memory.next, heads[sp], value.spans[sp].objects);
    }

    lemma SpanLinked(sp: SpanId)
      requires Valid() && sp in value.spans
      ensures sp in links.home && sp !in links.lists
      ensures links.home[sp] == if value.spans[sp].objects == [] then EMPTY else NONEMPTY
    {
      hide Links.Valid, Slotted, Kept, Listed, Chained, NoDup;
      links.Facts();
      ListedNow();
      OneList(value, sp);
      assert sp in links.lists[if value.spans[sp].objects == [] then EMPTY else NONEMPTY];
    }

    lemma ListedNow()
      requires Valid()
      ensures Listed(value)
    {
      hide Links.Valid, Slotted, Kept, Listed, Chained, Counts;
    }

    /** DLL_Remove and DLL_Prepend of one span. */
    method Relink(sp: SpanId, to: SpanId)
      requires links.Valid() && sp in links.home && sp !in links.lists && to in links.lists
      modifies links
      ensures links.Valid()
      ensures var from := old(links.home)[sp];
              from in old(links.lists) &&
              var without := old(links.lists)[from := Without(old(links.lists)[from], sp)];
              to in without && links.lists == without[to := [sp] + without[to]]
      ensures links.home == old(links.home)[sp := to]
    {
      links.Facts();
      links.Remove(sp);
      links.Prepend(to, sp);
    }

    /** ReleaseToSpans, up to the point where a free span leaves its list. */
    method ReleaseToSpans(o: Addr, sp: SpanId) returns (dropped: bool)
      requires Valid() && sp in value.spans && value.spans[sp].refcount > 0 && o != NULL && o !in at
      modifies this, links, memory
      ensures Valid()
      ensures dropped <==> old(value).spans[sp].refcount == 1
      ensures value == if dropped then ReleasedSpan(info, old(value), sp) else ReleasedObject(old(value), sp, o)
      ensures forall x | x in old(memory.next) && x != o :: x in memory.next && memory.next[x] == old(memory.next)[x]
      ensures forall x | x in at :: x == o || x in old(at)
    {
      hide Valid, ReleasedSpan, ReleasedObject;
      SpanAt(sp);
      dropped := refcounts[sp] == 1;
      if dropped {
        TakeOut(sp);
      } else {
        PutBack(o, sp);
      }
    }

    /** The object goes on its span's list. */
    method PutBack(o: Addr, sp: SpanId)
      requires Valid() && sp in value.spans && value.spans[sp].refcount > 1 && o != NULL && o !in at
      modifies this, links, memory
      ensures Valid() && value == ReleasedObject(old(value), sp, o)
      ensures memory.next.Keys == old(memory.next).Keys + {o}
      ensures forall x | x in old(memory.next) && x != o :: memory.next[x] == old(memory.next)[x]
      ensures at.Keys == old(at).Keys + {o}
    {
      hide Links.Valid, Represents, Without, ReleasedObject, Lists, Homed, Listed, Ring, NoDup, Threaded;
      SpanAt(sp);
      ListedNow();
      ReleasedObjectParts(value, sp, o);
      PushObject(memory.next, heads, refcounts, slots[..], at, value, sp, o);
      if heads[sp] == NULL {
        Relink(sp, NONEMPTY);
      }
      PushAfter(o, sp);
    }

    /** The object goes in front of the span's list. */
    method PushAfter(o: Addr, sp: SpanId)
      requires sp in value.spans && value.spans[sp].refcount > 1 && sp in heads && sp in refcounts && refcounts[sp] > 0
      requires links.Valid() && links.lists == Lists(ReleasedObject(value, sp, o)) && slots.Length == MAX_TRANSFER_ENTRIES
      requires counter == value.counter && numSpans == value.numSpans && usedSlots == |value.slots|
      requires cacheSize == value.cacheSize && maxCacheSize == value.maxCacheSize
      requires NONEMPTY !in ReleasedObject(value, sp, o).spans && EMPTY !in ReleasedObject(value, sp, o).spans
      requires Represents(memory.next[o := heads[sp]], heads[sp := o], refcounts[sp := refcounts[sp] - 1], slots[..],
                          at[o := OnList(sp)], ReleasedObject(value, sp, o))
      modifies `heads, `refcounts, `counter, `at, `value, memory
      ensures Valid() && value == ReleasedObject(old(value), sp, o) && at == old(at)[o := OnList(sp)]
      ensures memory.next == old(memory.next)[o := old(heads)[sp]]
    {
      hide Links.Valid, Represents, ReleasedObject, Lists;
      ReleasedObjectParts(value, sp, o);
      counter := counter + 1;
      refcounts := refcounts[sp := refcounts[sp] - 1];
      memory.next := memory.next[o := heads[sp]];
      heads := heads[sp := o];
      at := at[o := OnList(sp)];
      value := ReleasedObject(value, sp, o);
    }

    lemma ReleasedObjectParts(c: Central, sp: SpanId, o: Addr)
      requires sp in c.spans && c.spans[sp].refcount > 1
      ensures var x := ReleasedObject(c, sp, o);
              && x.spans.Keys == c.spans.Keys && x.counter == c.counter + 1 && x.numSpans == c.numSpans && x.slots == c.slots
              && x.cacheSize == c.cacheSize && x.maxCacheSize == c.maxCacheSize
              && Lists(x) == if c.spans[sp].objects == [] then Lists(c)[EMPTY := Without(c.empty, sp)][NONEMPTY := [sp] + c.nonempty] else Lists(c)
      ensures EMPTY in Lists(c) && Lists(c)[EMPTY] == c.empty && NONEMPTY in Lists(c) && Lists(c)[NONEMPTY] == c.nonempty
    {
    }

    /** No object of the span is in use any more. */
    method TakeOut(sp: SpanId)
      requires Valid() && sp in value.spans && value.spans[sp].refcount == 1
      modifies this, links
      ensures Valid() && value == ReleasedSpan(info, old(value), sp)
      ensures forall x | x in at :: x in old(at)
    {
      hide Links.Valid, Represents, Without, ReleasedSpan, Lists, Homed, Listed, Ring, Capacity, NoDup;
      ListedNow();
      ReleasedSpanParts(value, sp);
      DropSpan(memory.next, heads, refcounts, slots[..], at, info, value, sp);
      Unlist(sp);
      counter := counter + 1;
      counter := counter - Capacity(info);
      numSpans := numSpans - 1;
      heads, refcounts := heads - {sp}, refcounts - {sp};
      at := DropAt(at, value.spans[sp].objects);
      value := ReleasedSpan(info, value, sp);
    }

    /** The span comes off its list, by way of the nonempty one if it was empty. */
    method Unlist(sp: SpanId)
      requires Valid() && sp in value.spans
      modifies links
      ensures links.Valid() && links.lists == Lists(ReleasedSpan(info, value, sp))
    {
      hide Links.Valid, Represents, Without, ReleasedSpan, Lists, Homed, Listed, Ring, Capacity, NoDup;
      SpanAt(sp);
      ListedNow();
      ReleasedSpanParts(value, sp);
      if heads[sp] == NULL {
        Relink(sp, NONEMPTY);
      }
      links.Remove(sp);
    }

    lemma ReleasedSpanParts(c: Central, sp: SpanId)
      requires Listed(c) && sp in c.spans
      ensures var x := ReleasedSpan(info, c, sp);
              && x.spans.Keys == c.spans.Keys - {sp} && x.counter == c.counter + 1 - Capacity(info) && x.numSpans == c.numSpans - 1
              && x.slots == c.slots && x.cacheSize == c.cacheSize && x.maxCacheSize == c.maxCacheSize
              && (c.spans[sp].objects == [] ==> Lists(x) == Lists(c)[EMPTY := Without(c.empty, sp)][NONEMPTY := Without([sp] + c.nonempty, sp)])
              && (c.spans[sp].objects != [] ==> Lists(x) == Lists(c)[NONEMPTY := Without(c.nonempty, sp)])
      ensures EMPTY in Lists(c) && Lists(c)[EMPTY] == c.empty && NONEMPTY in Lists(c) && Lists(c)[NONEMPTY] == c.nonempty
    {
      hide Without, Listed, Capacity;
      OneList(c, sp);
    }

    /** One turn of ReleaseListToSpans: the link of the object is read before the
        object goes back, which may overwrite it. */
    method ReleaseFirst(start: Ptr, ghost xs: seq<Addr>, sp: SpanId) returns (rest: Ptr, dropped: bool)
      requires Valid() && Chain(memory.next, start, xs) && xs != [] && forall o | o in xs :: o !in at
      requires sp in value.spans && value.spans[sp].refcount > 0
      modifies this, links, memory
      ensures Valid() && Chain(memory.next, rest, xs[1..]) && forall o | o in xs[1..] :: o !in at
      ensures dropped <==> old(value).spans[sp].refcount == 1
      ensures value == if dropped then ReleasedSpan(info, old(value), sp) else ReleasedObject(old(value), sp, xs[0])
    {
      hide Links.Valid, Represents, Without, Chain;
      ChainTail(memory.next, start, xs);
      ChainEnds(memory.next, start, xs);
      ChainDistinct(memory.next, start, xs);
      rest := memory.next[start];
      ChainMembers(memory.next, rest, xs[1..]);
      assert forall o | o in xs[1..] :: o != start && o in xs;
      ghost var next0 := memory.next;
      dropped := ReleaseToSpans(start, sp);
      ChainFrame(next0, memory.next, rest, xs[1..]);
    }

    /** FetchFromOneSpans: up to `n` objects from the first nonempty span. */
    method FetchFromOneSpans(n: nat) returns (result: nat, start: Ptr, end: Ptr)
      requires Valid() && n > 0
      modifies this, links, memory
      ensures Valid() && value == Fetched(old(value), n)
      ensures result == |Grab(old(value), n)| && Chain(memory.next, start, Grab(old(value), n))
      ensures result > 0 ==> end == Grab(old(value), n)[result - 1]
      ensures forall x | x in old(memory.next) && (result == 0 || x != end) :: x in memory.next && memory.next[x] == old(memory.next)[x]
      ensures forall x | x in at :: x in old(at) && x !in Grab(old(value), n)
      ensures forall x | x in Grab(old(value), n) :: x in old(at)
    {
      hide Links.Valid, Represents, Without, Chain, Grab, Fetched, Lists, Chained, Listed, NoDup, Counts, Homed;
      ListedNow();
      ListsAt(value);
      var empty := links.IsEmpty(NONEMPTY);
      if empty {
        NothingToFetch(value, n);
        EmptyChain(memory.next);
        return 0, NULL, NULL;
      }
      var sp := links.First(NONEMPTY);
      FirstSpan(value);
      SpanAt(sp);
      result, end := Walk(sp, n);
      CutObjects(memory.next, heads, refcounts, slots[..], at, value, n);
      FetchedLists(value, n);
      GrabbedAt(n);
      if memory.next[end] == NULL {
        Relink(sp, EMPTY);
      }
      start := CutAfter(sp, end, result, n);
    }

    /** The `result` objects up to `end` are cut off from the span's list. */
    method CutAfter(sp: SpanId, end: Ptr, result: nat, ghost n: nat) returns (start: Ptr)
      requires links.Valid() && links.lists == Lists(Fetched(value, n)) && slots.Length == MAX_TRANSFER_ENTRIES
      requires counter == value.counter && numSpans == value.numSpans && usedSlots == |value.slots|
      requires cacheSize == value.cacheSize && maxCacheSize == value.maxCacheSize
      requires NONEMPTY !in Fetched(value, n).spans && EMPTY !in Fetched(value, n).spans
      requires Fetched(value, n) == value.(nonempty := Fetched(value, n).nonempty, empty := Fetched(value, n).empty,
                                           spans := Fetched(value, n).spans, counter := value.counter - result)
      requires sp in heads && sp in refcounts && end in memory.next
      requires Represents(memory.next[end := NULL], heads[sp := memory.next[end]], refcounts[sp := refcounts[sp] + result],
                          slots[..], DropAt(at, Grab(value, n)), Fetched(value, n))
      modifies `heads, `refcounts, `counter, `at, `value, memory
      ensures Valid() && value == Fetched(old(value), n) && at == DropAt(old(at), Grab(old(value), n))
      ensures memory.next == old(memory.next)[end := NULL] && start == old(heads)[sp]
    {
      hide Links.Valid, Represents, Grab, Fetched, Lists;
      start := heads[sp];
      heads := heads[sp := memory.next[end]];
      memory.next := memory.next[end := NULL];
      refcounts := refcounts[sp := refcounts[sp] + result];
      counter := counter - result;
      at := DropAt(at, Grab(value, n));
      value := Fetched(value, n);
    }

    /** The do-while loop of FetchFromOneSpans. */
    method Walk(sp: SpanId, n: nat) returns (result: nat, prev: Ptr)
      requires Valid() && n > 0 && value.nonempty != [] && value.nonempty[0] == sp && sp in heads
      ensures 0 < result == |Grab(value, n)| && prev == Grab(value, n)[result - 1]
      ensures prev in memory.next
      ensures sp in value.spans && (memory.next[prev] == NULL <==> result == |value.spans[sp].objects|)
    {
      FirstSpan(value);
      ghost var xs := value.spans[sp].objects;
      var curr := heads[sp];
      assert Chain(memory.next, curr, xs);
      assert LinkedLists.Linked(memory.next, xs, 0);
      prev := curr;
      curr := memory.next[curr];
      result := 1;
      while result < n && curr != NULL
        invariant 1 <= result <= n && result <= |xs| && prev == xs[result - 1] && prev in memory.next && curr == memory.next[prev]
        decreases n - result
      {
        assert LinkedLists.Linked(memory.next, xs, result - 1);
        assert LinkedLists.Linked(memory.next, xs, result);
        prev := curr;
        curr := memory.next[curr];
        result := result + 1;
      }
      assert LinkedLists.Linked(memory.next, xs, result - 1);
      if result < |xs| { assert LinkedLists.Linked(memory.next, xs, result); }
    }

    lemma ListsAt(c: Central)
      ensures EMPTY in Lists(c) && Lists(c)[EMPTY] == c.empty && NONEMPTY in Lists(c) && Lists(c)[NONEMPTY] == c.nonempty
      ensures Lists(c).Keys == {NONEMPTY, EMPTY}
    {
    }

    lemma NothingToFetch(c: Central, n: nat)
      requires Listed(c) && n > 0
      ensures c.nonempty == [] <==> Grab(c, n) == []
      ensures Grab(c, n) == [] ==> Fetched(c, n) == c
    {
      if c.nonempty != [] { FirstSpan(c); }
    }

    lemma EmptyChain(next: map<Ptr, Ptr>)
      ensures Chain(next, NULL, [])
    {
    }

    lemma FetchedLists(c: Central, n: nat)
      requires Listed(c) && c.nonempty != [] && n > 0
      ensures var sp, x := c.nonempty[0], Fetched(c, n);
              && sp in c.spans && |Grab(c, n)| <= |c.spans[sp].objects|
              && x.spans.Keys == c.spans.Keys && x.counter == c.counter - |Grab(c, n)| && x.numSpans == c.numSpans
              && x.slots == c.slots && x.cacheSize == c.cacheSize && x.maxCacheSize == c.maxCacheSize
              && Lists(x) == if |Grab(c, n)| == |c.spans[sp].objects|
                             then Lists(c)[NONEMPTY := Without(c.nonempty, sp)][EMPTY := [sp] + c.empty] else Lists(c)
    {
      FirstSpan(c);
      WithoutFirst(c.nonempty);
    }

    lemma GrabbedAt(n: nat)
      requires Valid()
      ensures forall x | x in Grab(value, n) :: x in at
    {
      if Grab(value, n) != [] {
        assert forall x | x in Grab(value, n) :: x in value.spans[value.nonempty[0]].objects;
      }
    }

    /** The loop of RemoveRange: fetches until there are `n` objects or no more. */
    method FetchRange(n: nat) returns (result: nat, start: Ptr, end: Ptr)
      requires Valid() && n > 0
      modifies this, links, memory
      ensures Valid() && value == FetchAll(old(value), n, []).0
      ensures result == |FetchAll(old(value), n, []).1| && Chain(memory.next, start, FetchAll(old(value), n, []).1)
      ensures forall o | o in at :: o in old(at) && o !in FetchAll(old(value), n, []).1
    {
      hide Links.Valid, Represents, Without, Chain, Grab, Fetched, FetchAll;
      ghost var c := value;
      FetchAllStep(value, n, []);
      ListedNow();
      NothingToFetch(value, n);
      result, start, end := FetchFromOneSpans(n);
      ghost var objs := Grab(c, n) + [];
      assert objs == Grab(c, n);
      if result != 0 {
        while result < n
          invariant Valid() && |objs| == result <= n && Chain(memory.next, start, objs)
          invariant FetchAll(value, n, objs) == FetchAll(c, n, [])
          invariant forall o | o in at :: o in old(at) && o !in objs
          invariant forall o | o in objs :: o in old(at)
        {
          FetchAllStep(value, n, objs);
          ListedNow();
          NothingToFetch(value, n - result);
          ghost var got, next0 := Grab(value, n - result), memory.next;
          GrabbedAt(n - result);
          ChainMembers(memory.next, start, objs);
          var m, head, tail := FetchFromOneSpans(n - result);
          if m == 0 {
            ChainFrame(next0, memory.next, start, objs);
            return;
          }
          assert tail in got;
          ChainFrame(next0, memory.next, start, objs);
          ghost var next1 := memory.next;
          start := memory.PushRange(start, head, tail, got, objs);
          OtherRepresents(next1, memory.next, heads, refcounts, slots[..], at, value, tail);
          result := result + m;
          objs := got + objs;
        }
      }
      FetchAllStep(value, n, objs);
    }

    /** The end of InsertRange with a slot to spare. */
    method PushEntry(start: Ptr, end: Ptr, ghost xs: seq<Addr>)
      requires Valid() && usedSlots < MAX_TRANSFER_ENTRIES
      requires SlotHolds(memory.next, (start, end), xs) && forall o | o in xs :: o !in at
      modifies this, slots
      ensures Valid() && value == Pushed(old(value), xs)
    {
      hide Links.Valid, Represents, SlotHolds;
      FillSlot(memory.next, heads, refcounts, slots[..], at, value, (start, end), xs);
      slots[usedSlots] := (start, end);
      usedSlots := usedSlots + 1;
      at := AddAt(at, xs, InEntry(|value.slots|));
      value := Pushed(value, xs);
    }

    /** The start of RemoveRange with a chain in the cache. */
    method PopEntry() returns (start: Ptr, end: Ptr)
      requires Valid() && 0 < usedSlots <= MAX_TRANSFER_ENTRIES
      modifies this
      ensures Valid() && value == Popped(old(value))
      ensures SlotHolds(memory.next, (start, end), old(value).slots[|old(value).slots| - 1])
    {
      hide Links.Valid, Represents, SlotHolds;
      EmptySlot(memory.next, heads, refcounts, slots[..], at, value);
      usedSlots := usedSlots - 1;
      start, end := slots[usedSlots].0, slots[usedSlots].1;
      assert slots[..][usedSlots] == (start, end);
      at := DropAt(at, value.slots[|value.slots| - 1]);
      value := Popped(value);
    }

    /** The end of Populate: a carved span is added. */
    method AddSpan(sp: SpanId, start: nat, head: Ptr)
      requires Valid() && sp !in value.spans && sp !in {NONEMPTY, EMPTY} && sp !in links.home && Capacity(info) > 0
      requires Chain(memory.next, head, Carved(info, start)) && forall o | o in Carved(info, start) :: o !in at
      modifies this, links
      ensures Valid() && value == WithSpan(info, old(value), sp, start)
    {
      hide Links.Valid, Represents, Chain, Carved, WithSpan, Lists, AddAt;
      ListsAt(value);
      WithSpanParts(value, sp, start);
      EnterSpan(memory.next, heads, refcounts, slots[..], at, info, value, sp, start, head);
      heads, refcounts := heads[sp := head], refcounts[sp := 0];
      links.Prepend(NONEMPTY, sp);
      numSpans := numSpans + 1;
      counter := counter + Capacity(info);
      at := AddAt(at, Carved(info, start), OnList(sp));
      value := WithSpan(info, value, sp, start);
    }

    lemma WithSpanParts(c: Central, sp: SpanId, start: nat)
      ensures var x := WithSpan(info, c, sp, start);
              && x.spans.Keys == c.spans.Keys + {sp} && x.counter == c.counter + Capacity(info) && x.numSpans == c.numSpans + 1
              && x.slots == c.slots && x.cacheSize == c.cacheSize && x.maxCacheSize == c.maxCacheSize
              && Lists(x) == Lists(c)[NONEMPTY := [sp] + c.nonempty]
    {
    }
  }

  lemma WithoutFirst<T>(xs: seq<T>)
    requires xs != []
    ensures Without(xs, xs[0]) == xs[1..]
  {
  }

  /** Fetching again and again; later objects go in front. */
  function FetchAll(c: Central, n: nat, objs: seq<Addr>): (Central, seq<Addr>)
    decreases n - |objs|
  {
    if |objs| >= n || Grab(c, n - |objs|) == [] then (c, objs)
    else FetchAll(Fetched(c, n - |objs|), n, Grab(c, n - |objs|) + objs)
  }

  lemma FetchAllStep(c: Central, n: nat, objs: seq<Addr>)
    ensures |objs| >= n ==> FetchAll(c, n, objs) == (c, objs)
    ensures |objs| < n ==> |Grab(c, n - |objs|)| <= n - |objs|
    ensures |objs| < n && Grab(c, n - |objs|) == [] ==> FetchAll(c, n, objs) == (c, objs)
    ensures |objs| < n && Grab(c, n - |objs|) != [] ==>
              FetchAll(c, n, objs) == FetchAll(Fetched(c, n - |objs|), n, Grab(c, n - |objs|) + objs)
  {
  }

  // ----- cutting a span into objects

  lemma CapacityReached(i: ClassInfo, num: nat)
    requires i.size > 0 && num <= Capacity(i)
    ensures (num + 1) * i.size <= i.pages * PAGE_SIZE <==> num < Capacity(i)
  {
    var total, cap := i.pages * PAGE_SIZE, Capacity(i);
    assert cap * i.size <= total < (cap + 1) * i.size;
    if num < cap { ScaleUp(num + 1, cap, i.size); } else { assert num == cap; }
  }

  lemma NextPiece(i: ClassInfo, start: nat, num: nat)
    requires i.size > 0 && num <= Capacity(i)
    ensures start * PAGE_SIZE + num * i.size + i.size <= start * PAGE_SIZE + i.pages * PAGE_SIZE <==> num < Capacity(i)
    ensures start * PAGE_SIZE + (num + 1) * i.size == start * PAGE_SIZE + num * i.size + i.size
    ensures |Carved(i, start)| == Capacity(i)
    ensures num < Capacity(i) ==> Carved(i, start)[num] == start * PAGE_SIZE + num * i.size
  {
    CapacityReached(i, num);
    assert (num + 1) * i.size == num * i.size + i.size;
  }

  /** The carving loop of Populate: each object points to the next. */
  method Carve(info: ClassInfo, start: nat, memory: Memory) returns (head: Ptr, num: nat)
    requires info.size > 0 && start > 0
    modifies memory
    ensures num == Capacity(info) && Chain(memory.next, head, Carved(info, start))
    ensures forall x | x in old(memory.next) && x !in Carved(info, start) :: x in memory.next && memory.next[x] == old(memory.next)[x]
  {
    hide Chain, Carved, Capacity, NoDup;
    var ptr := start * PAGE_SIZE;
    var limit := ptr + info.pages * PAGE_SIZE;
    var tail := NULL;          // NULL stands for the head field of the span
    head, num := NULL, 0;
    ghost var xs := Carved(info, start);
    CarvedWithin(info, start);
    assert forall x | x in xs :: x != NULL;
    while ptr + info.size <= limit
      invariant num <= |xs| && ptr == start * PAGE_SIZE + num * info.size
      invariant tail == (if num == 0 then NULL else xs[num - 1]) && (num > 0 ==> head == xs[0])
      invariant forall j | 0 <= j < num - 1 :: xs[j] in memory.next && memory.next[xs[j]] == xs[j + 1]
      invariant forall x | x in old(memory.next) && x !in xs :: x in memory.next && memory.next[x] == old(memory.next)[x]
      decreases |xs| - num
    {
      NextPiece(info, start, num);
      assert num > 0 ==> xs[num - 1] in xs;
      if tail == NULL {
        head := ptr;
      } else {
        memory.next := memory.next[tail := ptr];
      }
      tail := ptr;
      ptr := ptr + info.size;
      num := num + 1;
    }
    NextPiece(info, start, num);
    assert num > 0 ==> xs[num - 1] in xs;
    if tail == NULL {
      head := NULL;
    } else {
      memory.next := memory.next[tail := NULL];
    }
    CarvedChain(memory.next, xs, head);
  }

  lemma CarvedChain(next: map<Ptr, Ptr>, xs: seq<Ptr>, head: Ptr)
    requires head == (if xs == [] then NULL else xs[0]) && forall x | x in xs :: x != NULL
    requires forall j | 0 <= j < |xs| - 1 :: xs[j] in next && next[xs[j]] == xs[j + 1]
    requires xs != [] ==> xs[|xs| - 1] in next && next[xs[|xs| - 1]] == NULL
    ensures Chain(next, head, xs)
  {
    forall j | 0 <= j < |xs| ensures LinkedLists.Linked(next, xs, j) {
      assert xs[j] in xs;
    }
  }
}
