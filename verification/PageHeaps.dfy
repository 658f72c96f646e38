/** The page-level allocator of page_heap.cc: an object whose methods update
    span descriptors, free lists, page map and statistics in place. */
module PageHeaps {
  import opened Sequences
  import opened SpanLists
  import opened PageLayout
  import opened FreeSpans
  import opened HeapState
  import opened ReleaseOrder
  import opened Searches

  const MIN_SYSTEM_ALLOC: nat := MAX_PAGES
  const MAX_RELEASE_DELAY: nat := 1048576
  const DEFAULT_RELEASE_DELAY: nat := 262144
  const FORCED_COALESCE_INTERVAL: nat := 134217728
  const MAX_LISTED: nat := 1_000_000_000
  const MAX_VALID_PAGES: nat := 0x7_FFFF_FFFF_FFFF

  class PageHeap {
    const aggressive: bool         // aggressive_decommit_, fixed for a run
    const decommits: bool          // the system always takes pages back when it is asked to
    const limit: nat               // heap limit in pages; 0 means none
    const releaseDisabled: bool    // the release rate is too small to matter
    const links: Links<Node>       // the next/prev fields of spans and headers

    var spans: Spans               // live descriptors
    var pagemap: PageMap
    var stats: Stats
    var scavengeCounter: int
    var releaseIndex: nat

    var obtained: set<PageID>      // pages the system has handed out so far
    var systemTaken: nat           // TCMalloc_SystemTaken, in bytes

    ghost var owner: Owner         // the ideal page table
    ghost var backed: set<PageID>  // pages that are committed
    ghost var kept: nat            // how often the system refused to take pages back
    ghost var refusals: seq<nat>   // the requests, in pages, that the system refused so far
    ghost var leaked: set<PageID>  // pages for which the page map could not be extended

    /** The whole state as a value. */
    ghost function H(): Heap
      reads this, links
    {
      Heap(spans, owner, pagemap, links.lists, obtained, backed, stats)
    }

    /** The heap invariant, with the spans in `off` in transit and the pages in
        `away` decommitted but not on a returned list. */
    ghost predicate Between(off: set<SpanPtr>, away: set<PageID>)
      reads this, links
    {
      && links.Valid() && Sound(H(), off, away, aggressive)
      && stats.systemBytes <= systemTaken && releaseIndex <= MAX_PAGES + 1
      && Accounted(obtained, owner.Keys, leaked)
    }

    /** In aggressive mode the code relies on the system to take back every page. */
    ghost predicate Valid()
      reads this, links
    {
      Between({}, {}) && (aggressive ==> decommits)
    }

    constructor (aggressive: bool, decommits: bool, limit: nat, releaseDisabled: bool)
      ensures Between({}, {}) && (Valid() <==> (aggressive ==> decommits)) && fresh(links)
      ensures this.aggressive == aggressive && this.decommits == decommits && this.limit == limit && spans == map[]
      ensures obtained == {} && leaked == {}
    {
      hide Sound, Homed, NoDup, Links.Valid;
      this.aggressive, this.decommits, this.limit, this.releaseDisabled := aggressive, decommits, limit, releaseDisabled;
      links := new Links();
      spans, pagemap, stats := map[], map[], Stats(0, 0, 0, 0);
      scavengeCounter, releaseIndex := 0, MAX_PAGES;
      obtained, systemTaken, owner, backed, leaked, kept, refusals := {}, 0, map[], {}, {}, 0, [];
      new;
      for i := 0 to MAX_PAGES + 1
        modifies links
        invariant links.Valid() && fresh(links) && links.home == map[]
        invariant forall h | h in links.lists :: h.Head? && h.bin < i && links.lists[h] == []
        invariant forall l, j: nat | l != InUse && j < i :: Head(l, j) in links.lists
      {
        links.Init(Head(Normal, i));
        links.Init(Head(Returned, i));
      }
      EmptySound(links.lists, aggressive);
    }

    // ----- page map and descriptors

    method GetDescriptor(p: int) returns (a: SpanPtr)
      ensures a == if p in pagemap then pagemap[p] else NULL
    {
      if p in pagemap { a := pagemap[p]; } else { a := NULL; }
    }

    method NewSpan(start: PageID, length: nat) returns (a: SpanPtr)
      modifies `spans
      ensures a != NULL && a !in old(spans)
      ensures spans == old(spans)[a := Span(start, length, InUse, 0)]
    {
      FreshPointer(spans.Keys);
      a :| a != NULL && a !in spans;
      spans := spans[a := Span(start, length, InUse, 0)];
    }

    method DeleteSpan(a: SpanPtr)
      modifies `spans
      ensures spans == old(spans) - {a}
    {
      spans := spans - {a};
    }

    method RecordSpan(a: SpanPtr)
      requires a in spans && spans[a].length > 0
      modifies `pagemap
      ensures pagemap == old(pagemap)[spans[a].start := a][spans[a].End() - 1 := a]
    {
      pagemap := pagemap[spans[a].start := a];
      if spans[a].length > 1 {
        pagemap := pagemap[spans[a].start + spans[a].length - 1 := a];
      }
    }

    // ----- free lists

    method RemoveFromFreeList(a: SpanPtr)
      requires links.Valid() && OnItsList(H(), a)
      modifies `stats, links
      ensures links.Valid() && H() == Unlisted(old(H()), a)
      ensures links.home == old(links.home) - {At(a)}
    {
      if spans[a].location == Normal {
        stats := stats.(freeBytes := stats.freeBytes - spans[a].Bytes());
      } else {
        stats := stats.(unmappedBytes := stats.unmappedBytes - spans[a].Bytes());
      }
      links.Remove(At(a));
    }

    method PrependToFreeList(a: SpanPtr)
      requires links.Valid() && a in spans && spans[a].Free()
      requires HeadOf(spans[a]) in links.lists && At(a) !in links.lists && At(a) !in links.home
      modifies `stats, links
      ensures links.Valid() && H() == Relisted(old(H()), a)
    {
      if spans[a].location == Normal {
        stats := stats.(freeBytes := stats.freeBytes + spans[a].Bytes());
      } else {
        stats := stats.(unmappedBytes := stats.unmappedBytes + spans[a].Bytes());
      }
      links.Prepend(HeadOf(spans[a]), At(a));
    }

    // ----- committing and decommitting

    method CommitSpan(a: SpanPtr)
      requires a in spans
      modifies `stats, `backed
      ensures H() == Committed(old(H()), a)
    {
      backed := backed + SpanPages(spans[a]);
      stats := stats.(committedBytes := stats.committedBytes + spans[a].Bytes());
    }

    /** The system may refuse to take pages back, except in aggressive mode. */
    method DecommitSpan(a: SpanPtr) returns (ok: bool)
      requires a in spans
      modifies `stats, `backed, `kept
      ensures decommits ==> ok
      ensures H() == if ok then Decommitted(old(H()), a) else old(H())
      ensures kept == if ok then old(kept) else old(kept) + 1
    {
      ok := *;
      ok := ok || decommits;
      if !ok {
        kept := kept + 1;
      } else {
        backed := backed - SpanPages(spans[a]);
        stats := stats.(committedBytes := stats.committedBytes - spans[a].Bytes());
      }
    }

    // ----- carving

    /** The tail of Carve: what is left of `a` beyond its first `n` pages goes
        back on a free list under a descriptor of its own. */
    method KeepRemainder(a: SpanPtr, n: nat, location: Location) returns (l: SpanPtr)
      requires links.Valid() && a in spans && 0 < n < spans[a].length && location != InUse
      requires forall x | x in links.lists || x in links.home :: x.At? ==> x.ptr in spans
      requires HeadOf(Remainder(spans[a], n).(location := location)) in links.lists
      modifies `spans, `pagemap, `stats, `owner, links
      ensures links.Valid() && l != NULL && l !in old(spans) && a in spans
      ensures H() == RemainderKept(old(H()), a, n, l, location)
    {
      hide Links.Valid, Interval, Joined, Adjust, HeadOf, Homed, CutOwner, NoDup, RelistedLists;
      l := CutOff(a, n, location);
      PrependToFreeList(l);
      spans := spans[a := spans[a].(length := n)];
      pagemap := pagemap[spans[a].start + n - 1 := a];
    }

    /** The pages of `a` beyond the first `n` get a descriptor and entries of their own. */
    method CutOff(a: SpanPtr, n: nat, location: Location) returns (l: SpanPtr)
      requires a in spans && 0 < n < spans[a].length
      modifies `spans, `pagemap, `owner
      ensures l != NULL && l !in old(spans) && owner == CutOwner(old(owner), old(spans)[a], n, l)
      ensures spans == old(spans)[l := Remainder(old(spans)[a], n).(location := location)]
      ensures pagemap == old(pagemap)[spans[l].start := l][spans[l].End() - 1 := l]
    {
      hide Interval, CutOwner;
      l := NewSpan(spans[a].start + n, spans[a].length - n);
      owner := CutOwner(owner, spans[a], n, l);
      spans := spans[l := spans[l].(location := location)];
      RecordSpan(l);
    }

    /** The head of Carve: a free span leaves its list to be used. */
    method TakeOff(a: SpanPtr)
      requires Valid() && a in spans && spans[a].Free()
      modifies `spans, `stats, links
      ensures links.Valid() && OnItsList(old(H()), a) && NoDup(old(H()).lists[HeadOf(old(spans)[a])])
      ensures H() == InUsed(Unlisted(old(H()), a), a)
      ensures spans == old(spans)[a := old(spans)[a].(location := InUse)]
      ensures forall x | x in links.lists || x in links.home :: x.At? ==> x.ptr in spans
      ensures forall l, i: nat | l != InUse :: Head(l, Bin(i)) in links.lists && Head(l, Bin(i)) in old(H()).lists
    {
      hide Sound, Homed, NoDup, Links.Valid, Interval, Joined;
      links.Facts();
      ghost var h := H();
      SoundListed(h, {}, {}, aggressive, a);
      SoundLinks(h, {}, {}, aggressive, links.home);
      RemoveFromFreeList(a);
      spans := spans[a := spans[a].(location := InUse)];
    }

    /** Takes the first `n` pages of a free span; the rest stays free. */
    method Carve(a: SpanPtr, n: nat) returns (r: SpanPtr)
      requires Valid() && a in spans && spans[a].Free() && 0 < n <= spans[a].length
      modifies `spans, `pagemap, `stats, `owner, `backed, links
      ensures Valid() && r == a
      ensures Used(spans) == Used(old(spans))[a := Span(old(spans)[a].start, n, InUse, 0)]
      ensures stats.systemBytes == old(stats.systemBytes) && owner.Keys == old(owner).Keys
    {
      hide Sound, NoDup, OnItsList, Links.Valid, Used, Unlisted, InUsed, RemainderKept, Committed, Interval, Joined;
      ghost var h := H();
      var oldLocation := spans[a].location;
      TakeOff(a);
      StepFacts(h, a);
      if n < spans[a].length {
        var l := KeepRemainder(a, n, oldLocation);
        CarvePartSteps(h, a, n, l);
        CarvePartSound(h, a, n, l, aggressive);
      } else {
        CarveWholeSteps(h, a);
        CarveWholeSound(h, a, aggressive);
      }
      if oldLocation == Returned {
        CommitSpan(a);
      }
      r := a;
    }

    // ----- merging

    /** Span `b` dies, and its pages become part of its neighbour `a`. */
    method Absorb(a: SpanPtr, b: SpanPtr)
      requires links.Valid() && a in spans && a != b && OnItsList(H(), b)
      requires Adjacent(spans[a], spans[b]) && spans[b].length > 0 && spans[a].length > 0
      modifies `spans, `pagemap, `stats, `owner, links
      ensures links.Valid() && H() == Absorbed(old(H()), a, b)
    {
      hide Links.Valid, Interval, Joined;
      ghost var h := H();
      var s, t := spans[a], spans[b];
      RemoveFromFreeList(b);
      DeleteSpan(b);
      if t.End() == s.start {
        spans := spans[a := s.(start := s.start - t.length, length := s.length + t.length)];
        pagemap := pagemap[spans[a].start := a];
      } else {
        spans := spans[a := s.(length := s.length + t.length)];
        pagemap := pagemap[spans[a].start + spans[a].length - 1 := a];
      }
      owner := JoinOwner(owner, a, b);
      assert spans == JoinSpans(h.spans, a, b);
    }

    /** One `if` of MergeIntoFreeList: looks up the page `q` next to `a` and
        absorbs the span found there if it may be merged. */
    method MergeSide(a: SpanPtr, q: int, ghost left: bool, ghost away: set<PageID>) returns (b: SpanPtr, committed: int)
      requires a in spans && spans[a].Free() && Between({a}, away) && AwayRight(H(), a, away, aggressive)
      requires q == if left then spans[a].start - 1 else spans[a].End()
      modifies `spans, `pagemap, `stats, `owner, links
      ensures links.Valid() && SideMerged(old(H()), a, b, H())
      ensures SideChoice(old(H()), a, left, b, aggressive)
      ensures b != NULL ==> OnItsList(old(H()), b) && old(spans)[b].length > 0
      ensures committed == if b != NULL && aggressive then ToBytes(|ReturnedPages(old(spans)[b])|) else 0
      ensures !aggressive ==> forall l | l != old(spans)[a].location :: SameAt(old(H()), H(), l)
    {
      hide Sound, Links.Valid, Absorbed, Interval, Joined, SameAt;
      ghost var h := H();
      forall l ensures SameAt(h, h, l) { SameAtSelf(h, l); }
      committed := 0;
      b := GetDescriptor(q);
      if q in pagemap { NeighbourFacts(H(), a, left, pagemap[q], away, aggressive); }
      if b != NULL {
        if MayMerge(aggressive, spans[a], spans[b]) {
          if aggressive && spans[b].location == Returned {
            committed := spans[b].Bytes();
          }
          SpanSize(spans[b]);
          Absorb(a, b);
          forall l | l != h.spans[a].location && h.spans[b].location != l ensures SameAt(h, H(), l) {
            AbsorbedElsewhere(h, a, b, l);
          }
        } else {
          b := NULL;
        }
      }
    }

    /** The two merges of MergeIntoFreeList. Each looks one span to its side. */
    method MergeSides(a: SpanPtr) returns (committed: int, ghost away: set<PageID>)
      requires a in spans && spans[a].Free() && Between({a}, ReturnedPages(spans[a]))
      requires aggressive ==> spans[a].location == Normal
      modifies `spans, `pagemap, `stats, `owner, links
      ensures links.Valid() && Grows(old(H()), H()) && stats.systemBytes == old(stats.systemBytes)
      ensures a in spans && spans[a].Free() && Sound(H(), {a}, away, aggressive)
      ensures Settled(spans, a, aggressive) && AwayRight(H(), a, away, aggressive)
      ensures spans[a].location == old(spans)[a].location
      ensures aggressive ==> committed == ToBytes(|away|)
      // had the system to refuse now, the assertion on temp_committed would hold, and the
      // books would balance, exactly if no free span was next to this one
      ensures aggressive ==> HeadOf(spans[a]) in links.lists
      ensures aggressive ==> (committed == 0 <==> Alone(old(spans), a))
      ensures aggressive ==> (StillBalanced(Relisted(H(), a).stats) <==> Alone(old(spans), a))
      ensures !aggressive ==> Adjust(stats, spans[a].location, spans[a].length) ==
                              Adjust(old(stats), old(spans)[a].location, old(spans)[a].length)
      ensures !aggressive ==> forall l | l != old(spans)[a].location :: SameAt(old(H()), H(), l)
    {
      hide Sound, Links.Valid, Absorbed, SettledLeft, SettledRight, FreeGrows, Used, MayMerge, Homed, NoDup, Adjust, Interval, Joined,
        SameAt;
      ghost var h0, away0 := H(), ReturnedPages(spans[a]);
      StartAway(h0, a, aggressive);
      links.Facts();
      var p: int, n := spans[a].start, spans[a].length;
      var prev, c0 := MergeSide(a, p - 1, true, away0);
      SideSound(h0, a, true, prev, away0, aggressive);
      ghost var h1, away1 := H(), AwayAfter(h0, prev, away0);
      links.Facts();
      var next, c1 := MergeSide(a, p + n, false, away1);
      SideSound(h1, a, false, next, away1, aggressive);
      away := AwayAfter(h1, next, away1);
      if next != NULL { RightMerge(h1, a, next, away1, aggressive); }
      GrowsTransitive(h0, h1, H());
      if !aggressive {
        forall l | l != h0.spans[a].location ensures SameAt(h0, H(), l) { SameAtTransitive(h0, h1, H(), l); }
      }
      committed := c0 + c1;
      if aggressive {
        MergedAlone(h0, a, prev, away0, h1, next, away1);
        SoundHeads(H(), a, away);
        RefusedMerge(H(), a, away);
      }
    }

    /** Coalesces `a` with its neighbours and puts the union on a free list. In
        aggressive mode the union is decommitted first. If the system refuses, the
        assertion on temp_committed holds, and the books balance, exactly if no
        free span was next to this one. */
    method MergeIntoFreeList(a: SpanPtr) returns (ghost refused: bool, ghost asserted: bool)
      requires a in spans && spans[a].Free() && Between({a}, ReturnedPages(spans[a]))
      requires aggressive ==> spans[a].location == Normal
      modifies `spans, `pagemap, `stats, `owner, `backed, `kept, links
      ensures Grows(old(H()), H()) && stats.systemBytes == old(stats.systemBytes)
      ensures !refused ==> Between({}, {}) && asserted
      ensures !aggressive ==> kept == old(kept) && forall l | l != old(spans)[a].location :: SameAt(old(H()), H(), l)
      ensures !aggressive || decommits ==> !refused
      ensures kept >= old(kept)
      ensures !aggressive ==> stats == Adjust(old(stats), old(spans)[a].location, old(spans)[a].length)
      ensures refused ==> (asserted <==> Alone(old(spans), a)) && (StillBalanced(stats) <==> Alone(old(spans), a))
    {
      hide Sound, Links.Valid, Settled, FreeGrows, Used, Homed, NoDup, Adjust, AwayRight, Interval, Joined, Alone, StillBalanced, SameAt;
      ghost var h0 := H();
      var committed, away := MergeSides(a);
      ghost var h1 := H();
      AwayFacts(h1, a, away, aggressive);
      refused, asserted := false, true;
      if aggressive {
        var ok := DecommitSpan(a);
        if ok {
          spans := spans[a := spans[a].(location := Returned)];
          stats := stats.(committedBytes := stats.committedBytes + committed);
          SinkSound(h1, a, away);
          GrowsTransitive(h0, h1, H());
        } else {
          refused, asserted := true, committed == 0;
        }
      }
      links.Facts();
      SoundLinks(H(), {a}, if refused then away else ReturnedPages(spans[a]), aggressive, links.home);
      if !refused {
        RelistSound(H(), a, aggressive);
      }
      ghost var h2 := H();
      PrependToFreeList(a);
      RelistGrows(h2, a);
      GrowsTransitive(h0, h2, H());
      if !aggressive {
        forall l | l != h0.spans[a].location ensures SameAt(h0, H(), l) {
          RelistedElsewhere(h2, a, l);
          SameAtTransitive(h0, h2, H(), l);
        }
      }
    }

    // ----- returning spans and memory

    /** Gives a span back. Its pages end up in a free span. */
    method Delete(a: SpanPtr)
      requires Valid() && a in spans && spans[a].location == InUse
      modifies `spans, `pagemap, `stats, `owner, `backed, `releaseIndex, `scavengeCounter, `kept, links
      ensures Valid() && Grows(Retired(old(H()), a), H())
      ensures Used(spans) == Used(old(spans)) - {a}
      ensures stats.systemBytes == old(stats.systemBytes)
      ensures if old(scavengeCounter) >= old(spans)[a].length then scavengeCounter == old(scavengeCounter) - old(spans)[a].length
              else 0 <= scavengeCounter <= MAX_RELEASE_DELAY
      ensures kept >= old(kept)
    {
      hide Sound, Links.Valid, Settled, FreeGrows, Used, Interval, Joined;
      ghost var h := H();
      RetireSound(h, a, aggressive);
      var n := spans[a].length;
      spans := spans[a := spans[a].(location := Normal, sizeclass := 0)];
      ghost var refused, asserted := MergeIntoFreeList(a);
      ghost var h1 := H();
      ghost var trace := IncrementalScavenge(n);
      GrowsTransitive(Retired(h, a), h1, H());
    }

    /** Whether and how long to wait is a floating-point matter; here any
        nonnegative bounded delay may be chosen. When the counter has run out, one
        span is returned, if there is a normal one and the system agrees. */
    method IncrementalScavenge(n: nat) returns (ghost trace: seq<SpanPtr>)
      requires Valid()
      modifies `spans, `pagemap, `stats, `owner, `backed, `releaseIndex, `scavengeCounter, `kept, links
      ensures Valid() && Grows(old(H()), H())
      ensures stats.systemBytes == old(stats.systemBytes)
      ensures NormalWithout(old(H()), H(), trace) && |trace| <= 1
      ensures if old(scavengeCounter) >= n then scavengeCounter == old(scavengeCounter) - n && H() == old(H())
              else if releaseDisabled then scavengeCounter == DEFAULT_RELEASE_DELAY && H() == old(H())
              else if trace == [] then scavengeCounter == DEFAULT_RELEASE_DELAY && (stats.freeBytes == 0 || kept > old(kept))
              else 0 <= scavengeCounter <= MAX_RELEASE_DELAY
      ensures kept >= old(kept)
    {
      hide Sound, Links.Valid, Interval, Joined, NormalWithout, PagesOf;
      trace := [];
      GrowsReflexive(H());
      NormalWithoutNone(H());
      scavengeCounter := scavengeCounter - n;
      if scavengeCounter >= 0 {
        return;
      }
      if releaseDisabled {
        scavengeCounter := DEFAULT_RELEASE_DELAY;
        return;
      }
      ghost var h := H();
      var released, refused;
      released, refused, trace := ReleaseAtLeastNPages(1);
      OneEnough(h, H(), trace, aggressive);
      assert released == 0 <==> trace == [];
      if released == 0 {
        scavengeCounter := DEFAULT_RELEASE_DELAY;
      } else {
        var wait: int := *;
        scavengeCounter := if 0 <= wait <= MAX_RELEASE_DELAY then wait else MAX_RELEASE_DELAY;
      }
    }

    /** Returns the last span of a nonempty normal list to the system. Zero
        means that the system refused, and then nothing has changed. */
    method ReleaseLastNormalSpan(bin: nat) returns (n: nat)
      requires Valid() && bin <= MAX_PAGES && links.lists[Head(Normal, bin)] != []
      modifies `spans, `pagemap, `stats, `owner, `backed, `kept, links
      ensures Valid() && Grows(old(H()), H()) && !aggressive
      ensures n == 0 ==> H() == old(H()) && kept == old(kept) + 1
      ensures n > 0 ==> Moved(old(stats), stats, n) && kept == old(kept)
      // just the last span of that list has left the normal side
      ensures n > 0 ==>
                var xs := old(links.lists)[Head(Normal, bin)];
                var x := xs[|xs| - 1];
                && x.At? && x.ptr in old(spans) && old(spans)[x.ptr].location == Normal && n == old(spans)[x.ptr].length
                && NormalLess(old(H()), H(), bin, x.ptr)
    {
      hide Sound, Links.Valid, FreeGrows, Used, OnItsList, Homed, NoDup, Interval, Joined, NormalLess, SameAt, Without;
      ghost var h := H();
      links.Facts();
      HeadsListed(h, aggressive);
      var x := links.Last(Head(Normal, bin));
      NormalMember(h, bin, x, aggressive);
      var a := x.ptr;
      SoundListed(h, {}, {}, aggressive, a);
      GrowsReflexive(h);
      var ok := DecommitSpan(a);
      if ok {
        RemoveFromFreeList(a);
        n := spans[a].length;
        spans := spans[a := spans[a].(location := Returned)];
        ReleaseSound(h, a);
        ghost var h1 := H();
        LastReturned(h, h1, a);
        ghost var refused, asserted := MergeIntoFreeList(a);
        GrowsTransitive(h, h1, H());
        NormalLessSame(h, h1, H(), bin, a);
      } else {
        n := 0;
      }
    }

    /** One normal list's turn, as step `i` of the round that started at `h`. */
    method ReleaseFrom(ghost h: Heap, ghost first: nat, ghost i: nat, ghost sofar: nat) returns (n: nat, refused: bool)
      requires Valid() && first <= MAX_PAGES && i <= MAX_PAGES && releaseIndex == Slot(first, i)
      requires Grows(h, H()) && Moved(h.stats, stats, sofar) && RoundAt(h, H(), first, i)
      requires sofar == PagesOf(h.spans, Visited(h, first, i))
      modifies `spans, `pagemap, `stats, `owner, `backed, `kept, links
      ensures Valid() && Grows(h, H()) && Moved(h.stats, stats, sofar + n)
      ensures refused ==> !aggressive && n == 0 && H() == old(H()) && kept == old(kept) + 1 && ListAt(h, Slot(first, i)) != []
      ensures !refused ==> RoundAt(h, H(), first, i + 1) && kept == old(kept)
      ensures !refused ==> sofar + n == PagesOf(h.spans, Visited(h, first, i + 1))
      ensures !refused && n == 0 ==> H() == old(H()) && ListAt(H(), Slot(first, i)) == []
    {
      hide Sound, Links.Valid, FreeGrows, Used, Interval, Joined, RoundAt, NormalLess, Visited, PagesOf, Grows, Moved;
      ghost var h1 := H();
      HeadsListed(h1, aggressive);
      RoundLists(h, h1, first, i);
      n, refused := 0, false;
      var empty := links.IsEmpty(Head(Normal, releaseIndex));
      if empty {
        RoundSkips(h, h1, first, i);
      } else {
        ghost var xs := links.lists[Head(Normal, releaseIndex)];
        n := ReleaseLastNormalSpan(releaseIndex);
        refused := n == 0;
        if n > 0 {
          RoundTakes(h, h1, H(), first, i, xs[|xs| - 1].ptr);
          GrowsTransitive(h, h1, H());
          MovedAdd(h.stats, h1.stats, stats, sofar, n);
        }
      }
    }

    /** Where the next round starts. */
    function NextSlot(): (k: nat)
      reads this
      ensures k <= MAX_PAGES
    {
      if releaseIndex > MAX_PAGES then 0 else releaseIndex
    }

    /** One round over all normal lists, releasing the last span of each, from the
        release index on in cyclic order, until the request is met. */
    method ReleasePass(num: nat, sofar: nat) returns (released: nat, refused: bool, ghost steps: nat)
      requires Valid() && sofar < num && stats.freeBytes > 0
      modifies `spans, `pagemap, `stats, `owner, `backed, `releaseIndex, `kept, links
      ensures Valid() && Grows(old(H()), H())
      ensures sofar <= released && Moved(old(stats), stats, released - sofar)
      ensures refused || released > sofar
      ensures refused ==> !aggressive && released < num
      ensures kept == old(kept) + (if refused then 1 else 0)
      // the spans released are the last ones of the lists visited ...
      ensures steps <= MAX_PAGES + 1 && NextSlot() == Slot(old(NextSlot()), steps)
      ensures NormalWithout(old(H()), H(), Visited(old(H()), old(NextSlot()), steps))
      ensures released == sofar + PagesOf(old(spans), Visited(old(H()), old(NextSlot()), steps))
      // ... and no more than it took
      ensures steps > 0 ==> sofar + PagesOf(old(spans), Visited(old(H()), old(NextSlot()), steps - 1)) < num
      ensures !refused ==> released >= num || steps == MAX_PAGES + 1
      ensures refused ==> steps <= MAX_PAGES && ListAt(old(H()), Slot(old(NextSlot()), steps)) != []
    {
      hide Sound, Links.Valid, Grows, Moved, ListAt, Accounted, Interval, Visited, PagesOf, NormalWithout;
      released, refused := sofar, false;
      ghost var h := H();
      ghost var first := NextSlot();
      GrowsReflexive(h);
      MovedNothing(stats);
      RoundStarts(h, first);
      NothingVisited(h, first);
      var i := 0;
      while i < MAX_PAGES + 1 && released < num
        invariant i <= MAX_PAGES + 1 && sofar <= released && kept == old(kept)
        invariant Valid() && Grows(h, H()) && Moved(old(stats), stats, released - sofar)
        invariant NextSlot() == Slot(first, i) && RoundAt(h, H(), first, i)
        invariant released - sofar == PagesOf(h.spans, Visited(h, first, i))
        invariant i > 0 ==> sofar + PagesOf(h.spans, Visited(h, first, i - 1)) < num
        invariant released == sofar ==> H() == h
        invariant released == sofar ==> forall j: nat | j < i :: ListAt(h, Slot(first, j)) == []
        decreases MAX_PAGES + 1 - i
      {
        if releaseIndex > MAX_PAGES {
          releaseIndex := 0;
        }
        var n, stopped := ReleaseFrom(h, first, i, released - sofar);
        if stopped {
          return released, true, i;
        }
        released := released + n;
        i := i + 1;
        releaseIndex := releaseIndex + 1;
      }
      steps := i;
      if released == sofar {
        AllSlotsEmpty(h, first, aggressive);
      }
    }

    /** Round robin over the normal lists, one span at a time. */
    method ReleaseAtLeastNPages(num: nat) returns (released: nat, refused: bool, ghost trace: seq<SpanPtr>)
      requires Valid()
      modifies `spans, `pagemap, `stats, `owner, `backed, `releaseIndex, `kept, links
      ensures Valid() && Grows(old(H()), H())
      ensures Moved(old(stats), stats, released)
      ensures released >= num || stats.freeBytes == 0 || refused
      ensures refused ==> !aggressive && released < num
      ensures kept == old(kept) + (if refused then 1 else 0)
      // just the spans of `trace` have left the normal side, and without the last
      // of them the request was not met
      ensures NormalWithout(old(H()), H(), trace) && released == PagesOf(old(spans), trace)
      ensures trace != [] ==> PagesOf(old(spans), trace[..|trace| - 1]) < num
    {
      hide Sound, Links.Valid, FreeGrows, Used, Interval, Joined, NormalWithout, PagesOf, Visited;
      released, refused, trace := 0, false, [];
      ghost var h := H();
      GrowsReflexive(h);
      NormalWithoutNone(h);
      NoPagesOf(h.spans);
      while released < num && stats.freeBytes > 0
        invariant Valid() && Grows(h, H()) && Moved(old(stats), stats, released) && kept == old(kept)
        invariant NormalWithout(h, H(), trace) && released == PagesOf(h.spans, trace)
        invariant trace != [] ==> PagesOf(h.spans, trace[..|trace| - 1]) < num
        decreases stats.freeBytes
      {
        ghost var before, h1, first, steps := released, H(), NextSlot(), 0;
        released, refused, steps := ReleasePass(num, released);
        GrowsTransitive(h, h1, H());
        MovedAdd(old(stats), h1.stats, stats, before, released - before);
        TraceLonger(h, h1, H(), trace, first, steps, num);
        trace := trace + Visited(h1, first, steps);
        if refused {
          return;
        }
      }
      StatsNonnegative(H(), {}, {}, aggressive);
    }

    // ----- the heap limit

    ghost predicate WithinLimit(n: nat)
      reads this
    {
      Allows(limit, systemTaken, stats.unmappedBytes, n)
    }

    /** So it would be with every free page returned to the system. */
    ghost predicate WithinReach(n: nat)
      reads this
    {
      Allows(limit, systemTaken, stats.unmappedBytes + stats.freeBytes, n)
    }

    /** Checks that `n` more pages may be taken, releasing free pages if allowed
        and necessary. */
    method EnsureLimit(n: nat, withRelease: bool) returns (ok: bool, ghost refused: bool)
      requires Valid()
      modifies `spans, `pagemap, `stats, `owner, `backed, `releaseIndex, `kept, links
      ensures Valid() && Grows(old(H()), H())
      ensures ok <==> WithinLimit(n)
      ensures ok ==> old(WithinReach(n)) && WithinReach(n)
      ensures withRelease && !refused && old(WithinReach(n)) ==> ok
      ensures refused ==> withRelease && !aggressive && !old(WithinLimit(n)) && !ok
      ensures kept == old(kept) + (if refused then 1 else 0)
      ensures forall k :: WithinReach(k) <==> old(WithinReach(k))
      ensures NormalFewer(old(H()), H())
      ensures withRelease && !ok && !refused ==> stats.freeBytes == 0
      ensures limit == 0 || !withRelease || old(WithinLimit(n)) ==> H() == old(H())
      ensures stats.systemBytes == old(stats.systemBytes)
    {
      hide Sound, Links.Valid, FreeGrows, Used, Interval, Joined;
      GrowsReflexive(H());
      refused := false;
      if limit == 0 {
        return true, false;
      }
      StatsNonnegative(H(), {}, {}, aggressive);
      ghost var h := H();
      var takenPages := systemTaken / 8192;
      takenPages := takenPages - stats.unmappedBytes / 8192;
      if takenPages + n > limit && withRelease {
        ghost var trace;
        var released, stopped;
        released, stopped, trace := ReleaseAtLeastNPages(takenPages + n - limit);
        refused := stopped;
        ReleasedFewer(h, H(), trace);
        takenPages := takenPages - released;
        StatsNonnegative(H(), {}, {}, aggressive);
      }
      ok := takenPages + n <= limit;
    }

    // ----- allocating

    /** One of the two search loops of AllocLarge. */
    method BetterOf(location: Location, n: nat, best0: SpanPtr) returns (best: SpanPtr)
      requires Valid() && location != InUse && (best0 != NULL ==> Fits(spans, best0, n))
      ensures best != NULL ==> Fits(spans, best, n) && (best == best0 || HeadOf(spans[best]) == Head(location, MAX_PAGES))
      ensures best0 != NULL ==> best != NULL && NoWorse(spans[best], spans[best0])
      ensures forall b | Fits(spans, b, n) && HeadOf(spans[b]) == Head(location, MAX_PAGES) ::
                best != NULL && NoWorse(spans[best], spans[b])
    {
      hide Sound, Links.Valid, Homed, Interval, Joined;
      var l := Head(location, MAX_PAGES);
      ghost var h := H();
      HeadsListed(h, aggressive);
      HeadApart(h, l, aggressive);
      best := best0;
      var x := links.First(l);
      ghost var i := 0;
      while x != l
        invariant i <= |h.lists[l]| && x == if i == |h.lists[l]| then l else h.lists[l][i]
        invariant best != NULL ==> Fits(spans, best, n) && (best == best0 || HeadOf(spans[best]) == l)
        invariant best0 != NULL ==> best != NULL && NoWorse(spans[best], spans[best0])
        invariant forall j | 0 <= j < i ::
                    h.lists[l][j].At? && h.lists[l][j].ptr in spans &&
                    (spans[h.lists[l][j].ptr].length >= n ==>
                       best != NULL && NoWorse(spans[best], spans[h.lists[l][j].ptr]))
        decreases |h.lists[l]| - i
      {
        ListMember(h, l, x, aggressive);
        var span := x.ptr;
        if spans[span].length >= n {
          if best == NULL || spans[span].length < spans[best].length
             || (spans[span].length == spans[best].length && spans[span].start < spans[best].start) {
            best := span;
          }
        }
        SoundNonnull(h, span, aggressive);
        x := links.Step(x, l, i + 1);
        i := i + 1;
      }
      forall b | Fits(spans, b, n) && HeadOf(spans[b]) == l ensures best != NULL && NoWorse(spans[best], spans[b]) {
        FreeListed(h, b, aggressive);
        var j :| 0 <= j < |h.lists[l]| && h.lists[l][j] == At(b);
      }
    }

    /** Address-ordered best fit among the large spans of both lists. It calls
        itself at most once, after memory was released to meet the limit. */
    method AllocLarge(n: nat) returns (r: SpanPtr, ghost refused: bool, ghost asserted: bool)
      requires Valid() && n > 0
      modifies `spans, `pagemap, `stats, `owner, `backed, `releaseIndex, `kept, links
      ensures Valid()
      ensures r == NULL ==> Grows(old(H()), H())
      ensures r != NULL ==> Allocated(old(spans), spans, r, n)
      ensures old(WithinLimit(n)) && r == NULL ==> H() == old(H()) && forall b | Fits(spans, b, n) :: spans[b].length < MAX_PAGES
      ensures (old(WithinLimit(n)) || old(NormalWins(spans, n))) && r != NULL ==> BestLarge(old(spans), r, n)
      ensures kept == old(kept) + (if refused then 1 else 0)
      // unless the system refuses, a span is found exactly if the best one needs
      // no new memory, or the limit can be met by returning all that is free
      ensures refused ==> !aggressive && !old(WithinLimit(n))
      ensures r != NULL <==> old(NormalWins(spans, n)) ||
                             (old(WithinReach(n)) && !refused && exists b :: LargeFit(old(spans), b, n))
      // the assertion on bestNormal fails exactly if a normal span would do, a returned one
      // is better, and the limit cannot be met or the system refuses to help to meet it
      ensures !asserted <==> (exists b :: LargeFit(old(spans), b, n) && old(spans)[b].location == Normal)
                             && !old(NormalWins(spans, n)) && (refused || !old(WithinReach(n)))
      ensures !asserted ==> refused || !old(WithinLimit(0))
      ensures stats.systemBytes == old(stats.systemBytes)
      decreases if WithinLimit(n) then 0 else 1
    {
      hide Sound, Links.Valid, FreeGrows, Used, Interval, Joined, NormalWins, BestLarge, Grows, Allocated;
      ghost var h := H();
      refused, asserted := false, true;
      var bestNormal := BetterOf(Normal, n, NULL);
      var best := BetterOf(Returned, n, bestNormal);
      GrowsReflexive(h);
      LargeHeads(h.spans);
      BestOfTwo(h, bestNormal, best, n, aggressive);
      if best == bestNormal {
        if best == NULL {
          return NULL, refused, asserted;
        }
        FreeUnused(h.spans, best);
        r := Carve(best, n);
        CarvedAllocated(h.spans, spans, r, n);
        return;
      }
      var ok, _ := EnsureLimit(n, false);
      if ok {
        FreeUnused(h.spans, best);
        r := Carve(best, n);
        CarvedAllocated(h.spans, spans, r, n);
        return;
      }
      ok, refused := EnsureLimit(n, true);
      if ok {
        ghost var h1 := H();
        LargeFitStays(h, h1, best, n, aggressive);
        r, refused, asserted := AllocLarge(n);
        if r == NULL { GrowsTransitive(h, h1, H()); } else { AllocatedAfter(h, h1, spans, r, n); }
        return;
      }
      asserted := bestNormal == NULL;
      if bestNormal != NULL {
        FreeCounted(h, bestNormal, aggressive);
      }
      return NULL, refused, asserted;
    }

    /** Carves from the first member of a list that is known not to be empty. */
    method CarveFirst(l: Node, n: nat) returns (r: SpanPtr)
      requires Valid() && l in links.lists && links.lists[l] != [] && l.Head? && 0 < n <= l.bin < MAX_PAGES
      modifies `spans, `pagemap, `stats, `owner, `backed, links
      ensures Valid() && r != NULL && Allocated(old(spans), spans, r, n)
      ensures r in old(spans) && HeadOf(old(spans)[r]) == l && old(spans)[r].length == l.bin && At(r) == old(links.lists)[l][0]
      ensures stats.systemBytes == old(stats.systemBytes)
    {
      hide Sound, Links.Valid, Interval, Used, FreeGrows;
      ghost var h := H();
      var x := links.First(l);
      ListMember(h, l, x, aggressive);
      SoundNonnull(h, x.ptr, aggressive);
      FreeUnused(h.spans, x.ptr);
      r := Carve(x.ptr, n);
      CarvedAllocated(h.spans, spans, r, n);
    }

    /** How far the search for `n` pages has come, at length `s`. Until it is
        `touched` by a release the heap is `h`, and no fit is shorter. From then on
        either the limit is met, and a fit of at least this length is left, or it
        cannot be met, or the system has refused. */
    ghost predicate Searching(h: Heap, n: nat, s: nat, touched: bool, within: bool, kept0: nat)
      reads this, links
    {
      && Valid() && Grows(h, H()) && stats.systemBytes == h.stats.systemBytes && kept >= kept0
      && if !touched then
           H() == h && kept == kept0 && WithinLimit(n) == within && NoneShorter(h.spans, n, s)
         else
           && !within && !NormalFirst(h.spans, n) && SomeFit(h.spans, n)
           && if WithinLimit(n) then WithinReach(n) && SomeFit(spans, s)
              else kept > kept0 || (stats.freeBytes == 0 && !WithinReach(n))
    }

    /** The two lists of spans of `s` pages. */
    method SearchBin(n: nat, s: nat, ghost h: Heap, ghost touched0: bool, ghost within: bool, ghost kept0: nat)
      returns (r: SpanPtr, ghost touched: bool)
      requires 0 < n <= s < MAX_PAGES && Searching(h, n, s, touched0, within, kept0)
      modifies `spans, `pagemap, `stats, `owner, `backed, `releaseIndex, `kept, links
      ensures Valid() && stats.systemBytes == h.stats.systemBytes && kept >= kept0
      ensures r == NULL ==> Searching(h, n, s + 1, touched, within, kept0) && (WithinReach(n) <==> old(WithinReach(n)))
      ensures r != NULL ==> Allocated(h.spans, spans, r, n) && SomeFit(h.spans, n)
      ensures r != NULL && (within || NormalFirst(h.spans, n)) ==> Chosen(h, r, n)
      ensures r != NULL && kept == kept0 ==> NormalFirst(h.spans, n) || old(WithinReach(n))
    {
      hide Sound, Links.Valid, Interval, Used, FreeGrows, Grows, NormalFirst, Chosen, NormalFewer;
      touched := touched0;
      ghost var h1 := H();
      HeadsListed(h1, aggressive);
      var empty := links.IsEmpty(Head(Normal, s));
      if !empty {
        NormalFound(h1, s, n, aggressive);
        r := CarveFirst(Head(Normal, s), n);
        AllocatedAfter(h, h1, spans, r, n);
        return;
      }
      empty := links.IsEmpty(Head(Returned, s));
      r := NULL;
      if empty {
        BinEmpty(h1, s, aggressive);
        return;
      }
      ReturnedFound(h1, s, n, aggressive);
      var ok, _ := EnsureLimit(n, true);
      ghost var h2 := H();
      touched := touched || !within;
      GrowsTransitive(h, h1, h2);
      if ok {
        HeadsListed(h2, aggressive);
        empty := links.IsEmpty(Head(Returned, s));
        if !empty {
          r := CarveFirst(Head(Returned, s), n);
          AllocatedAfter(h, h2, spans, r, n);
          return;
        }
        StillEmpty(h1, h2, s, aggressive);
      }
    }

    /** First the exact-size lists, shortest first, then the large spans. */
    method SearchFreeAndLargeLists(n: nat) returns (r: SpanPtr)
      requires Valid() && n > 0
      modifies `spans, `pagemap, `stats, `owner, `backed, `releaseIndex, `kept, links
      ensures Valid()
      ensures r == NULL ==> Grows(old(H()), H())
      ensures r != NULL ==> Allocated(old(spans), spans, r, n)
      // within the limit a fit is found if there is one, and is a best fit
      ensures old(WithinLimit(n)) && r == NULL ==> H() == old(H()) && !SomeFit(spans, n)
      ensures (old(WithinLimit(n)) || old(NormalFirst(spans, n))) && r != NULL ==> Chosen(old(H()), r, n)
      // beyond it, if the best fit is a normal span, or the limit can be met by returning all that is free
      ensures kept >= old(kept) && (old(NormalFirst(spans, n)) ==> r != NULL)
      ensures kept == old(kept) ==>
                (r != NULL <==> old(NormalFirst(spans, n)) || (old(WithinReach(n)) && old(SomeFit(spans, n))))
      ensures stats.systemBytes == old(stats.systemBytes)
    {
      hide Sound, Links.Valid, Interval, Used, FreeGrows, Grows, NormalFirst, Chosen;
      ghost var h, within, kept0, touched := H(), WithinLimit(n), kept, false;
      GrowsReflexive(h);
      WithinReaches(n);
      var s := n;
      while s < MAX_PAGES
        invariant n <= s && Searching(h, n, s, touched, within, kept0) && (WithinReach(n) <==> old(WithinReach(n)))
        decreases MAX_PAGES - s
      {
        r, touched := SearchBin(n, s, h, touched, within, kept0);
        if r != NULL {
          return;
        }
        s := s + 1;
      }
      ghost var h1 := H();
      OnlyLarge(h1, n, s, aggressive);
      ghost var refused, asserted;
      r, refused, asserted := AllocLarge(n);
      if r == NULL { GrowsTransitive(h, h1, H()); } else { AllocatedAfter(h, h1, spans, r, n); }
    }

    lemma WithinReaches(n: nat)
      requires Valid()
      ensures WithinLimit(n) ==> WithinReach(n)
    {
      hide Sound, Links.Valid;
      StatsNonnegative(H(), {}, {}, aggressive);
    }

    // ----- growing the heap

    /** The system hands out whole fresh pages, at least as many as asked for,
        or nothing. */
    method SystemAlloc(ask: nat) returns (p: PageID, actual: nat)
      modifies `systemTaken, `refusals
      ensures p == 0 ==> systemTaken == old(systemTaken) && refusals == old(refusals) + [ask]
      ensures p > 0 ==> actual >= ToBytes(ask) && systemTaken == old(systemTaken) + actual && refusals == old(refusals)
      ensures p > 0 ==> Unseen(obtained, p, actual / 8192)
    {
      p, actual := *, *;
      if actual < ToBytes(ask) || (exists q | p <= q < p + actual / 8192 :: q in obtained) {
        p := 0;
      }
      if p > 0 {
        systemTaken := systemTaken + actual;
      } else {
        refusals := refusals + [ask];
      }
    }

    /** Pages that the system has just handed out are counted. */
    method CountPages(p: PageID, k: nat)
      requires Valid() && Unseen(obtained, p, k) && stats.systemBytes + ToBytes(k) <= systemTaken
      modifies `stats, `backed, `obtained
      ensures H() == Granted(old(H()), p, k) && Sound(H(), {}, {}, aggressive) && Fresh(H(), p, k)
      ensures stats.systemBytes <= systemTaken
    {
      hide Sound, Links.Valid, Interval, Fresh, Unseen, Accounted;
      ghost var h := H();
      stats := stats.(systemBytes := stats.systemBytes + ToBytes(k), committedBytes := stats.committedBytes + ToBytes(k));
      obtained, backed := obtained + Interval(p, p + k), backed + Interval(p, p + k);
      GrantSound(h, p, k, aggressive);
      SoundOwned(h, aggressive);
      GrantedFresh(h, p, k);
    }

    /** The second half of GrowHeap: fresh pages are counted, then mapped, and
        then deleted as if they had been in use, so that they coalesce. */
    method AddPages(p: PageID, k: nat, ghost n: nat) returns (ok: bool)
      requires Valid() && p > 0 && k > 0 && n <= k && stats.systemBytes + ToBytes(k) <= systemTaken
      requires Unseen(obtained, p, k)
      modifies `spans, `pagemap, `stats, `owner, `backed, `releaseIndex, `scavengeCounter, `kept, `obtained, `leaked, links
      ensures kept >= old(kept)
      ensures Valid() && Used(spans) == Used(old(spans))
      ensures ok ==> exists a :: Fits(spans, a, n)
      ensures leaked == if ok then old(leaked) else old(leaked) + (obtained - old(obtained))
    {
      hide Sound, Links.Valid, Used, FreeGrows, Interval, Assign, Joined, Fresh, Unseen, Fits, Spanned, Retired, Granted, Grows, Accounted;
      GrantedSame(H(), p, k);
      AccountFresh(obtained, owner.Keys, leaked, p, k);
      FreshRest(obtained, p, k);
      CountPages(p, k);
      var ensured := *;
      if !ensured {
        leaked := leaked + Interval(p, p + k);
        return false;
      }
      ListPages(p, k, n);
      return true;
    }

    /** The new pages become a span, which is freed at once. */
    method ListPages(p: PageID, k: nat, ghost n: nat)
      requires (aggressive ==> decommits) && links.Valid() && Sound(H(), {}, {}, aggressive) && Fresh(H(), p, k)
      requires p > 0 && k > 0 && n <= k && stats.systemBytes <= systemTaken && releaseIndex <= MAX_PAGES + 1
      requires Accounted(obtained, owner.Keys + Interval(p, p + k), leaked)
      modifies `spans, `pagemap, `stats, `owner, `backed, `releaseIndex, `scavengeCounter, `kept, links
      ensures kept >= old(kept)
      ensures Valid() && Used(spans) == Used(old(spans)) && exists a :: Fits(spans, a, n)
    {
      hide Sound, Links.Valid, Used, FreeGrows, Interval, Assign, Joined, Fresh, Unseen, Fits, Spanned, Retired, Granted, Grows, Accounted;
      ghost var h1 := H();
      var a := MapPages(p, k);
      SpannedKeys(h1, p, k, a);
      UsedFresh(h1.spans, a, Span(p, k, InUse, 0));
      Delete(a);
      FreshDeleted(h1, p, k, a, H(), n);
    }

    /** Pages that were just obtained become a span in use. */
    method MapPages(p: PageID, k: nat) returns (a: SpanPtr)
      requires p > 0 && k > 0 && links.Valid() && Sound(H(), {}, {}, aggressive)
      requires Fresh(H(), p, k)
      modifies `spans, `pagemap, `owner
      ensures a != NULL && a !in old(spans) && a in spans && spans[a].location == InUse
      ensures links.Valid() && Sound(H(), {}, {}, aggressive) && H() == Spanned(old(H()), p, k, a)
      ensures Used(spans) == Used(old(spans))[a := Span(p, k, InUse, 0)]
    {
      hide Sound, Links.Valid, Used, Interval, Assign, Joined, Fresh;
      a := NewSpan(p, k);
      RecordSpan(a);
      owner := Assign(owner, p, p + k, a);
      SpanSound(old(H()), p, k, a, aggressive);
    }

    /** Gets at least `n` more pages and puts them on a free list. On failure
        memory may still have been obtained, if only the page map could not be
        extended to cover it. */
    method GrowHeap(n: nat) returns (ok: bool, ghost lost: bool, ghost over: set<nat>)
      requires Valid() && n > 0
      modifies `spans, `pagemap, `stats, `owner, `backed, `releaseIndex, `scavengeCounter, `obtained, `systemTaken,
        `leaked, `kept, `refusals, links
      ensures Valid() && Used(spans) == Used(old(spans))
      ensures kept >= old(kept)
      ensures ok ==> !lost && SomeFit(spans, n)
      ensures leaked == if lost then old(leaked) + (obtained - old(obtained)) else old(leaked)
      // no memory is got exactly if the request is absurd, or both a large request and
      // one for just `n` pages were over the limit or refused by the system
      ensures !ok && !lost <==>
                n > MAX_VALID_PAGES || ((AskFor(n) in over || RefusedSince(|old(refusals)|, AskFor(n))) &&
                                        (n in over || RefusedSince(|old(refusals)|, n)))
      ensures forall k | k in over :: limit != 0 && (!old(WithinReach(k)) || kept > old(kept))
      ensures n <= MAX_VALID_PAGES && !old(WithinReach(n)) ==> n in over && AskFor(n) in over
      ensures !ok && !lost ==> systemTaken == old(systemTaken) && Grows(old(H()), H())
      ensures ok || lost ==>
                systemTaken >= old(systemTaken) + ToBytes(n) &&
                (systemTaken >= old(systemTaken) + ToBytes(AskFor(n)) || AskFor(n) in over || RefusedSince(|old(refusals)|, AskFor(n)))
    {
      hide Sound, Links.Valid, Interval, Used, FreeGrows;
      lost, over := false, {};
      ghost var h := H();
      GrowsReflexive(h);
      if n > MAX_VALID_PAGES {
        return false, false, {};
      }
      var ask := if n > MIN_SYSTEM_ALLOC then n else MIN_SYSTEM_ALLOC;
      ghost var exceeded, exceeded1 := false, false;
      var p, actual;
      p, actual, exceeded := Request(ask);
      over := if exceeded then {ask} else {};
      ghost var refusals1 := refusals;
      assert p == 0 && !exceeded ==> refusals1[|refusals1| - 1] == ask;
      if p == 0 {
        if n < ask {
          ghost var h1 := H();
          p, actual, exceeded1 := Request(n);
          GrowsTransitive(h, h1, H());
          over := if exceeded1 then over + {n} else over;
          assert p == 0 && !exceeded1 ==> refusals[|refusals| - 1] == n;
          assert refusals1 <= refusals;
        }
        if p == 0 {
          return false, false, over;
        }
      }
      ok := AddPages(p, actual / 8192, n);
      lost := !ok;
    }

    /** Asks the system for `ask` pages, unless they would exceed the limit. */
    method Request(ask: nat) returns (p: PageID, actual: nat, ghost exceeded: bool)
      requires Valid()
      modifies `spans, `pagemap, `stats, `owner, `backed, `releaseIndex, `systemTaken, `kept, `refusals, links
      ensures Valid() && Grows(old(H()), H()) && kept >= old(kept) && stats.systemBytes == old(stats.systemBytes)
      ensures p == 0 <==> exceeded || refusals != old(refusals)
      ensures refusals == if p == 0 && !exceeded then old(refusals) + [ask] else old(refusals)
      ensures exceeded ==> limit != 0 && (!old(WithinReach(ask)) || kept > old(kept))
      ensures !old(WithinReach(ask)) ==> exceeded
      ensures p == 0 ==> systemTaken == old(systemTaken) && forall k :: WithinReach(k) <==> old(WithinReach(k))
      ensures p > 0 ==> actual >= ToBytes(ask) && systemTaken == old(systemTaken) + actual && Unseen(obtained, p, actual / 8192)
    {
      hide Sound, Links.Valid, Interval, Used, FreeGrows, Unseen;
      p, actual, exceeded := 0, 0, false;
      var within, unmet := EnsureLimit(ask, true);
      if within {
        p, actual := SystemAlloc(ask);
      } else {
        exceeded := true;
      }
    }

    /** The pages that the heap asks the system for at first, to satisfy `n`. */
    static function AskFor(n: nat): nat {
      if n > MIN_SYSTEM_ALLOC then n else MIN_SYSTEM_ALLOC
    }

    /** The system has refused to hand out `k` pages, since it had refused `before` times. */
    ghost predicate RefusedSince(before: nat, k: nat)
      reads this
    {
      exists i :: before <= i < |refusals| && refusals[i] == k
    }

    /** Much is free, some of it returned, and the heap is about to grow by enough. */
    static predicate Fragmented(stats: Stats, n: nat) {
      && stats.freeBytes != 0 && stats.unmappedBytes != 0
      && stats.freeBytes + stats.unmappedBytes >= stats.systemBytes / 4
      && stats.systemBytes / FORCED_COALESCE_INTERVAL != (stats.systemBytes + ToBytes(n)) / FORCED_COALESCE_INTERVAL
    }

    /** The first part of New: what is free, if need be after all normal spans were
        returned so that everything coalesces. */
    method FindFree(n: nat) returns (r: SpanPtr, ghost at: Heap)
      requires Valid() && n > 0
      modifies `spans, `pagemap, `stats, `owner, `backed, `releaseIndex, `kept, links
      ensures Valid() && kept >= old(kept)
      ensures r == NULL ==> Grows(old(H()), H())
      ensures r != NULL ==> Allocated(old(spans), spans, r, n)
      ensures old(NormalFirst(spans, n)) || (old(WithinLimit(n)) && old(SomeFit(spans, n))) ==>
                r != NULL && at == old(H()) && Chosen(at, r, n)
      ensures limit == 0 && r != NULL ==> Chosen(at, r, n) && SomeFit(at.spans, n) && Used(at.spans) == Used(old(spans))
      ensures limit == 0 && r == NULL ==>
                && at == H() && !SomeFit(spans, n)
                && (if Fragmented(old(stats), n) then
                      stats.freeBytes == 0 || kept > old(kept) || stats.freeBytes <= old(stats.freeBytes) - ToBytes(0x7fff_ffff)
                    else H() == old(H()))
    {
      hide Sound, Links.Valid, Used, FreeGrows, Interval, Chosen, NormalFirst, SomeFit, Fits;
      ghost var h := H();
      at := h;
      r := SearchFreeAndLargeLists(n);
      if r != NULL {
        if limit == 0 { ChosenFits(at, r, n); }
        return;
      }
      ghost var h1 := H();
      if stats.freeBytes != 0 && stats.unmappedBytes != 0
         && stats.freeBytes + stats.unmappedBytes >= stats.systemBytes / 4
         && stats.systemBytes / FORCED_COALESCE_INTERVAL
            != (stats.systemBytes + ToBytes(n)) / FORCED_COALESCE_INTERVAL {
        var _, _, _ := ReleaseAtLeastNPages(0x7fff_ffff);
        at := H();
        GrowsTransitive(h, h1, at);
        r := SearchFreeAndLargeLists(n);
        if r != NULL {
          AllocatedAfter(h, at, spans, r, n);
          if limit == 0 { ChosenFits(at, r, n); }
        } else {
          GrowsTransitive(h, at, H());
        }
      }
    }

    /** A run of `n` pages, from the free lists or from the system. `before` is the
        heap when the system was asked, and `at` the heap in which the run was found. */
    method New(n: nat) returns (r: SpanPtr, grown: bool, ghost before: Heap, ghost at: Heap, ghost lost: bool)
      requires Valid() && n > 0
      modifies `spans, `pagemap, `stats, `owner, `backed, `releaseIndex, `scavengeCounter, `obtained, `systemTaken,
        `leaked, `kept, `refusals, links
      ensures Valid()
      ensures r == NULL ==> Used(spans) == Used(old(spans))
      ensures r != NULL ==> Allocated(old(spans), spans, r, n)
      // without a heap limit, New fails exactly if nothing fits, and the request is absurd,
      // the system refused both requests, or the page map could not be extended ...
      ensures limit == 0 && r == NULL ==> !grown
      ensures limit == 0 ==>
                (r == NULL <==>
                   !SomeFit(at.spans, n) &&
                   (lost || n > MAX_VALID_PAGES ||
                    (RefusedSince(|old(refusals)|, AskFor(n)) && RefusedSince(|old(refusals)|, n))))
      // ... and the system is asked only if nothing fits, also after all normal spans were
      // returned if much is free but in pieces ...
      ensures !grown && !lost ==> systemTaken == old(systemTaken)
      ensures limit == 0 && (grown || r == NULL) ==>
                && !SomeFit(before.spans, n)
                && (if Fragmented(old(stats), n) then
                      before.stats.freeBytes == 0 || kept > old(kept) ||
                      before.stats.freeBytes <= old(stats.freeBytes) - ToBytes(0x7fff_ffff)
                    else before == old(H()))
      // ... no page is lost unless the page map could not be extended; then New fails ...
      ensures leaked == if lost then old(leaked) + (obtained - old(obtained)) else old(leaked)
      ensures lost ==> r == NULL
      // ... a span that fits is found at once, and in any case the result is the
      // best fit of the heap `at` the search, in which nothing in use has changed
      ensures old(NormalFirst(spans, n)) || (old(WithinLimit(n)) && old(SomeFit(spans, n))) ==>
                r != NULL && at == old(H()) && Chosen(at, r, n)
      ensures limit == 0 && r != NULL ==> Chosen(at, r, n) && Used(at.spans) == Used(old(spans))
    {
      hide Sound, Links.Valid, Used, FreeGrows, Interval, Chosen, NormalFirst, SomeFit, Fits, Fragmented, AskFor;
      ghost var h := H();
      grown, lost := false, false;
      r, at := FindFree(n);
      before := at;
      if r != NULL {
        return;
      }
      before := H();
      ghost var over;
      grown, lost, over := GrowHeap(n);
      if !grown {
        return;
      }
      at := H();
      r := SearchFreeAndLargeLists(n);
      if r != NULL {
        AllocatedSame(h.spans, at.spans, spans, r, n);
        if limit == 0 { ChosenFits(at, r, n); }
      }
    }

    /** Cuts a span in use in two; `a` keeps the first `n` pages. */
    method Split(a: SpanPtr, n: nat) returns (l: SpanPtr)
      requires Valid() && a in spans && spans[a].location == InUse && spans[a].sizeclass == 0 && 0 < n < spans[a].length
      modifies `spans, `pagemap, `owner
      ensures Valid() && l !in old(spans)
      ensures Used(spans) == Used(old(spans))[l := Span(old(spans)[a].start + n, old(spans)[a].length - n, InUse, 0)]
                                             [a := old(spans)[a].(length := n)]
    {
      hide Sound, Links.Valid, Used, FreeGrows, Interval;
      ghost var h := H();
      var extra := spans[a].length - n;
      l := NewSpan(spans[a].start + n, extra);
      RecordSpan(l);
      pagemap := pagemap[spans[a].start + n - 1 := a];
      spans := spans[a := spans[a].(length := n)];
      owner := CutOwner(owner, h.spans[a], n, l);
      SplitSound(h, a, n, l, aggressive);
    }

    /** Gives a span in use a size class and records all its pages. */
    method RegisterSizeClass(a: SpanPtr, sc: nat)
      requires Valid() && a in spans && spans[a].location == InUse
      modifies `spans, `pagemap
      ensures Valid() && Used(spans) == Used(old(spans))[a := old(spans)[a].(sizeclass := sc)]
      ensures pagemap == Assign(old(pagemap), old(spans)[a].start, old(spans)[a].End(), a)
    {
      hide Sound, Links.Valid, Used, FreeGrows, Interval, Assign;
      ghost var h := H();
      SoundEnds(h, a, aggressive);
      var start, length := spans[a].start, spans[a].length;
      spans := spans[a := spans[a].(sizeclass := sc)];
      AssignNothing(pagemap, start + 1, a);
      var i := 1;
      while i < length - 1
        invariant 1 <= i && (i <= length - 1 || i == 1)
        invariant spans == h.spans[a := h.spans[a].(sizeclass := sc)]
        invariant pagemap == Assign(h.pagemap, start + 1, start + i, a)
        decreases length - i
      {
        AssignOneMore(h.pagemap, start + 1, start + i, a);
        pagemap := pagemap[start + i := a];
        i := i + 1;
      }
      AssignWithEnds(h.pagemap, start, start + i, start + length, a);
      RegisterSound(h, a, sc, aggressive);
    }

    // ----- reading the heap

    /** Next of the page map: the least page from `start` on with an entry. */
    method NextEntry(start: PageID) returns (found: bool, p: PageID)
      ensures found ==> p in pagemap && p >= start && forall q | q in pagemap && q >= start :: p <= q
      ensures !found ==> forall q | q in pagemap :: q < start
    {
      var pages := set p | p in pagemap && p >= start;
      if pages == {} {
        assert forall q | q in pagemap :: q in pages || q < start;
        return false, 0;
      }
      ghost var x :| x in pages;
      Least(pages, 0, x);
      p :| p in pages && forall q | q in pages :: p <= q;
      assert forall q | q in pagemap && q >= start :: q in pages;
      found := true;
    }

    /** The descriptor `a` in the least entry `p` of the page map at or above
        `start`. From a boundary that is the next live span, found through its own
        page. From the inside of a span it is not: the entry may be stale, and
        otherwise leads back to the span around `start`. A dead descriptor may
        hold anything. */
    method GetNextRange(start: PageID) returns (found: bool, r: Span, ghost a: SpanPtr, ghost p: PageID)
      requires Valid()
      ensures found <==> exists b :: b in spans && spans[b].End() > start
      ensures found ==> LeastEntry(H(), start, p) && p in owner && a == pagemap[p] && (a in spans ==> r == spans[a])
      ensures found ==> (AtBoundary(H(), start) <==> IsNext(H(), start, a) && a == owner[p])
      ensures found && !AtBoundary(H(), start) ==> IsAround(H(), start, owner[p])
    {
      hide Sound, Links.Valid;
      var entry;
      found, entry := NextEntry(start);
      EntriesReach(H(), start, found, entry, aggressive);
      a, p := NULL, entry;
      r := *;
      if found {
        if AtBoundary(H(), start) {
          NextIsLive(H(), start, p, aggressive);
        } else {
          NextInside(H(), start, p, aggressive);
        }
        a := pagemap[entry];
        if pagemap[entry] in spans {
          r := spans[pagemap[entry]];
        }
      }
    }

    /** What IterateOverRanges does under one hold of the page-heap lock: up to 16
        ranges from `page` on. If `page` is a boundary at this time, they are
        exactly the spans that start before the page to go on from, which is a
        boundary again; whatever happened to the heap since the last batch. */
    method NextBatch(page: PageID) returns (ranges: seq<Span>, next: PageID, done: bool)
      requires Valid()
      ensures |ranges| <= 16 && (done || |ranges| == 16)
      ensures AtBoundary(H(), page) ==> AtBoundary(H(), next) && ListedBetween(H(), page, ranges, next)
      ensures AtBoundary(H(), page) && done ==> forall b | b in spans :: spans[b].start < next
    {
      hide Sound, Links.Valid, InOrder;
      ghost var h, sure := H(), AtBoundary(H(), page);
      ranges, next, done := [], page, false;
      NothingBetween(h, page);
      while |ranges| < 16
        invariant |ranges| <= 16
        invariant sure ==> AtBoundary(h, next) && ListedBetween(h, page, ranges, next)
        decreases 16 - |ranges|
      {
        var found, r;
        ghost var a, p;
        found, r, a, p := GetNextRange(next);
        if !found {
          NoneStarts(h, next, aggressive);
          done := true;
          break;
        }
        if sure {
          NextBoundary(h, next, a, aggressive);
          OneMoreRange(h, page, ranges, next, a);
        }
        ranges := ranges + [r];
        next := r.End();
      }
    }

    /** The batches of IterateOverRanges, while nothing happens between them: every
        live span once, in address order. */
    method AllRanges() returns (ranges: seq<Span>)
      requires Valid()
      ensures InOrder(ranges) && forall s :: s in ranges <==> s in spans.Values
    {
      hide Sound, Links.Valid, InOrder, ListedBetween, AtBoundary;
      ghost var h := H();
      ranges := [];
      var page: PageID := 1;
      StartsAtBoundary(h, aggressive);
      ghost var bound := LastStart(h, aggressive);
      var done := false;
      while !done
        invariant AtBoundary(h, page) && ListedBetween(h, 1, ranges, page)
        invariant done ==> forall b | b in h.spans :: h.spans[b].start < page
        decreases !done, bound + 1 - page
      {
        var batch, next;
        batch, next, done := NextBatch(page);
        BatchAdded(h, ranges, page, batch, next, bound);
        ranges, page := ranges + batch, next;
      }
      AllListed(h, ranges, page, aggressive);
    }
  }

  ghost predicate InOrder(ranges: seq<Span>) {
    forall i, j | 0 <= i < j < |ranges| :: ranges[i].End() <= ranges[j].start
  }

  /** The live spans that start from page `lo` up to `hi`, in address order. */
  ghost predicate ListedBetween(h: Heap, lo: PageID, ranges: seq<Span>, hi: PageID) {
    && lo <= hi && InOrder(ranges)
    && (forall s | s in ranges :: s in h.spans.Values && lo <= s.start < s.End() <= hi)
    && (forall b | b in h.spans && lo <= h.spans[b].start < hi :: h.spans[b] in ranges)
  }

  lemma NothingBetween(h: Heap, page: PageID)
    ensures ListedBetween(h, page, [], page)
  {
  }

  lemma OneMoreRange(h: Heap, lo: PageID, ranges: seq<Span>, page: PageID, a: SpanPtr)
    requires ListedBetween(h, lo, ranges, page) && IsNext(h, page, a) && h.spans[a].length > 0
    requires forall b | b in h.spans && h.spans[b].start < h.spans[a].End() :: b == a || h.spans[b].start < page
    ensures ListedBetween(h, lo, ranges + [h.spans[a]], h.spans[a].End())
  {
    var r := ranges + [h.spans[a]];
    forall i, j | 0 <= i < j < |r| ensures r[i].End() <= r[j].start {
      if j == |ranges| { assert r[i] in ranges; }
    }
    assert r[|ranges|] == h.spans[a];
    forall b | b in h.spans && lo <= h.spans[b].start < h.spans[a].End() ensures h.spans[b] in r {
      if b != a { assert h.spans[b] in ranges; }
    }
  }

  lemma BatchAdded(h: Heap, ranges: seq<Span>, page: PageID, batch: seq<Span>, next: PageID, bound: nat)
    requires ListedBetween(h, 1, ranges, page) && ListedBetween(h, page, batch, next)
    requires forall b | b in h.spans :: h.spans[b].start <= bound
    ensures ListedBetween(h, 1, ranges + batch, next)
    ensures |batch| > 0 ==> page < next && page <= bound
  {
    var r := ranges + batch;
    forall i, j | 0 <= i < j < |r| ensures r[i].End() <= r[j].start {
      if i < |ranges| <= j { assert r[i] in ranges && r[j] in batch; }
    }
    if |batch| > 0 { assert batch[0] in batch; }
  }

  lemma AllListed(h: Heap, ranges: seq<Span>, page: PageID, aggressive: bool)
    requires Sound(h, {}, {}, aggressive)
    requires ListedBetween(h, 1, ranges, page) && forall b | b in h.spans :: h.spans[b].start < page
    ensures InOrder(ranges) && forall s :: s in ranges <==> s in h.spans.Values
  {
  }

  /** The page saved between two batches need not stay a boundary: when two free
      spans are merged, the start of the second no longer is one. */
  lemma MergeBreaks(h: Heap, a: SpanPtr, b: SpanPtr, away: set<PageID>, aggressive: bool)
    requires Sound(h, {a}, away, aggressive) && OnItsList(h, b) && NoDup(h.lists[HeadOf(h.spans[b])])
    requires a in h.spans && a != b && h.spans[a].Free() && Adjacent(h.spans[a], h.spans[b]) && h.spans[b].length > 0
    requires away !! SpanPages(h.spans[b])
    ensures var second := if h.spans[a].start < h.spans[b].start then h.spans[b].start else h.spans[a].start;
            AtBoundary(h, second) && !AtBoundary(Absorbed(h, a, b), second)
  {
    hide Listing, Coalesced, Balanced, NoDup, Mapped;
    AbsorbSound(h, a, b, away, aggressive);
    SpanFacts(h.spans, h.owner);
    var second := if h.spans[a].start < h.spans[b].start then h.spans[b].start else h.spans[a].start;
    assert h.spans[a].Covers(h.spans[a].start) && h.spans[b].Covers(h.spans[b].start);
    assert Absorbed(h, a, b).spans[a].Covers(second);
  }

  /** A sound heap in which the answer is a dead descriptor: a span in use covers
      pages 1 to 3, and page 2 still carries the entry of a span merged away. */
  lemma StaleInside(aggressive: bool) returns (h: Heap)
    ensures Sound(h, {}, {}, aggressive) && !AtBoundary(h, 2)
    ensures LeastEntry(h, 2, 2) && h.pagemap[2] !in h.spans
  {
    var heads := (set i: nat | i <= MAX_PAGES :: Head(Normal, i)) + (set i: nat | i <= MAX_PAGES :: Head(Returned, i));
    var lists: Lists := map l | l in heads :: [];
    var spans: Spans := map[1 := Span(1, 3, InUse, 0)];
    var owner: Owner := map[1 := 1, 2 := 1, 3 := 1];
    var pages: set<PageID> := {1, 2, 3};
    h := Heap(spans, owner, map[1 := 1, 2 := 2, 3 := 1], lists, pages, pages,
              Stats(ToBytes(3), 0, 0, ToBytes(3)));
    EmptySound(lists, aggressive);
    StaleLayout(spans, owner, h.pagemap);
    StaleBooks(spans, owner, pages);
  }

  lemma StaleLayout(spans: Spans, owner: Owner, pagemap: PageMap)
    requires spans == map[1 := Span(1, 3, InUse, 0)] && owner == map[1 := 1, 2 := 1, 3 := 1]
    requires pagemap == map[1 := 1, 2 := 2, 3 := 1]
    ensures Layout(spans, owner, pagemap) && Listed(spans, {}) == Listed(map[], {})
  {
  }

  lemma StaleBooks(spans: Spans, owner: Owner, pages: set<PageID>)
    requires spans == map[1 := Span(1, 3, InUse, 0)] && owner == map[1 := 1, 2 := 1, 3 := 1] && pages == {1, 2, 3}
    ensures Balanced(Listed(spans, {}), owner, pages, pages, {}, Stats(ToBytes(3), 0, 0, ToBytes(3)))
  {
    assert Listed(spans, {}) == map[];
    assert Pages(map[], owner, Normal) == {} && Pages(map[], owner, Returned) == {};
    assert |pages| == 3;
  }

  /** A state in the middle of a merge in aggressive mode in which a refusal breaks
      the books: of the two pages that were merged, the second had been returned. */
  lemma RefusedBreaks() returns (h: Heap, away: set<PageID>)
    ensures 1 in h.spans && h.spans[1] == Span(1, 2, Normal, 0) && away == {2} && Sound(h, {1}, away, true)
    ensures HeadOf(h.spans[1]) in h.lists && !StillBalanced(Relisted(h, 1).stats)
  {
    var heads := (set i: nat | i <= MAX_PAGES :: Head(Normal, i)) + (set i: nat | i <= MAX_PAGES :: Head(Returned, i));
    var lists: Lists := map l | l in heads :: [];
    var spans: Spans := map[1 := Span(1, 2, Normal, 0)];
    var owner: Owner := map[1 := 1, 2 := 1];
    away := {2};
    h := Heap(spans, owner, owner, lists, {1, 2}, {1}, Stats(ToBytes(2), 0, 0, ToBytes(1)));
    assert Listed(spans, {1}) == map[];
    assert Pages(map[], owner, Normal) == {} && Pages(map[], owner, Returned) == {};
    assert |{1, 2}| == 2 && |away| == 1;
    assert Head(Normal, 2) in lists;
  }

  /** `n` more pages do not exceed the limit, if `unmapped` bytes of those taken
      have been given back. */
  predicate Allows(limit: nat, systemTaken: nat, unmapped: int, n: nat) {
    limit == 0 || systemTaken / 8192 - unmapped / 8192 + n <= limit
  }

  /** A sound heap in which the best large fit for `m` pages is on the returned
      list although the normal list has one too. The request is answered with
      NULL, against the assertion on bestNormal, if the limit is below `m` (it is
      exceeded already, and cannot be met), or if it is not exceeded yet, `m` more
      pages would exceed it, and the system refuses to take any back. */
  lemma BestNormalLeft(n: nat, m: nat, limit: nat) returns (h: Heap)
    requires MAX_PAGES <= m < n && (0 < limit < m || n <= limit < n + m)
    ensures Sound(h, {}, {}, false) && !NormalWins(h.spans, m)
    ensures exists b :: LargeFit(h.spans, b, m) && h.spans[b].location == Normal
    ensures !Allows(limit, h.stats.systemBytes, h.stats.unmappedBytes, m)
    ensures limit < m ==> !Allows(limit, h.stats.systemBytes, h.stats.unmappedBytes + h.stats.freeBytes, m)
    ensures limit >= n ==> Allows(limit, h.stats.systemBytes, h.stats.unmappedBytes, 0)
  {
    hide Layout, Balanced, Listing, Coalesced, SpanPages, Interval, TwoOwners, Listed;
    var s, t := Span(1, n, Normal, 0), Span(1 + n, m, Returned, 0);
    var spans: Spans := map[1 := s, 2 := t];
    TwoLayout(spans, s, t);
    TwoBooks(spans, s, t);
    var lists := TwoLists(spans, s, t);
    h := Heap(spans, TwoOwners(s, t), TwoOwners(s, t), lists, SpanPages(s) + SpanPages(t), SpanPages(s),
              Stats(ToBytes(n + m), ToBytes(n), ToBytes(m), ToBytes(n)));
    assert LargeFit(spans, 1, m) && LargeFit(spans, 2, m);
    assert !NoWorse(s, t);
  }

  /** A normal and a returned span, side by side. */
  ghost predicate TwoFree(spans: Spans, s: Span, t: Span) {
    && spans == map[1 := s, 2 := t] && 0 < t.length < s.length
    && s == Span(1, s.length, Normal, 0) && t == Span(1 + s.length, t.length, Returned, 0)
  }

  function TwoOwners(s: Span, t: Span): Owner {
    map p | p in SpanPages(s) + SpanPages(t) :: if p in SpanPages(s) then 1 else 2
  }

  lemma TwoLayout(spans: Spans, s: Span, t: Span)
    requires TwoFree(spans, s, t)
    ensures Layout(spans, TwoOwners(s, t), TwoOwners(s, t))
  {
  }

  lemma TwoLists(spans: Spans, s: Span, t: Span) returns (lists: Lists)
    requires TwoFree(spans, s, t) && t.length >= MAX_PAGES
    ensures Listing(Listed(spans, {}), lists) && Coalesced(Listed(spans, {}), false)
  {
    hide Interval;
    var heads := (set i: nat | i <= MAX_PAGES :: Head(Normal, i)) + (set i: nat | i <= MAX_PAGES :: Head(Returned, i));
    lists := map l | l in heads :: [];
    lists := lists[Head(Normal, MAX_PAGES) := [At(1)]][Head(Returned, MAX_PAGES) := [At(2)]];
    assert Listed(spans, {}) == map[1 := s, 2 := t];
    assert HeadOf(s) == Head(Normal, MAX_PAGES) && HeadOf(t) == Head(Returned, MAX_PAGES);
  }

  lemma TwoBooks(spans: Spans, s: Span, t: Span)
    requires TwoFree(spans, s, t)
    ensures Balanced(Listed(spans, {}), TwoOwners(s, t), SpanPages(s) + SpanPages(t), SpanPages(s), {},
                     Stats(ToBytes(s.length + t.length), ToBytes(s.length), ToBytes(t.length), ToBytes(s.length)))
  {
    hide Interval, TwoOwners, Pages, Listed;
    var pages, rest := SpanPages(s), SpanPages(t);
    TwoPages(spans, s, t);
    assert pages + rest - rest - {} == pages;
    SpanSize(s);
    SpanSize(t);
    assert |pages + rest| == |pages| + |rest|;
  }

  lemma TwoPages(spans: Spans, s: Span, t: Span)
    requires TwoFree(spans, s, t)
    ensures Pages(Listed(spans, {}), TwoOwners(s, t), Normal) == SpanPages(s)
    ensures Pages(Listed(spans, {}), TwoOwners(s, t), Returned) == SpanPages(t)
    ensures SpanPages(s) !! SpanPages(t) && TwoOwners(s, t).Keys == SpanPages(s) + SpanPages(t)
  {
    assert SpanPages(s) !! SpanPages(t);
    hide Interval;
  }

  /** `start` is not strictly inside a live span. */
  ghost predicate AtBoundary(h: Heap, start: PageID) {
    start in h.owner && h.owner[start] in h.spans ==> h.spans[h.owner[start]].start == start
  }

  ghost predicate IsNext(h: Heap, start: PageID, a: SpanPtr) {
    && a in h.spans && h.spans[a].start >= start
    && forall b | b in h.spans && h.spans[b].start >= start :: h.spans[a].start <= h.spans[b].start
  }

  lemma {:induction false} Least(pages: set<PageID>, lo: PageID, x: PageID)
    requires x in pages && lo <= x && forall q | q in pages :: lo <= q
    ensures exists p :: p in pages && forall q | q in pages :: p <= q
    decreases x - lo
  {
    if lo !in pages {
      Least(pages, lo + 1, x);
    }
  }

  ghost predicate LeastEntry(h: Heap, start: PageID, p: PageID) {
    p in h.pagemap && p >= start && forall q | q in h.pagemap && q >= start :: p <= q
  }

  /** `start` is inside span `a`, behind its first page. */
  ghost predicate IsAround(h: Heap, start: PageID, a: SpanPtr) {
    a in h.spans && h.spans[a].start < start < h.spans[a].End()
  }

  /** There is an entry to find exactly if a live span ends above `start`. */
  lemma EntriesReach(h: Heap, start: PageID, found: bool, p: PageID, aggressive: bool)
    requires Sound(h, {}, {}, aggressive)
    requires found ==> LeastEntry(h, start, p)
    requires !found ==> forall q | q in h.pagemap :: q < start
    ensures found <==> exists b :: b in h.spans && h.spans[b].End() > start
    ensures found ==> p in h.owner
  {
    hide Listing, Coalesced, Balanced, Mapped, Tiling;
    if found {
      EntryAt(h.spans, h.owner, h.pagemap, p);
      TilingAt(h.spans, h.owner, p);
    } else {
      forall b | b in h.spans ensures h.spans[b].End() <= start {
        EndsLookup(h.spans, h.owner, h.pagemap, b);
      }
    }
  }

  /** From a boundary, the least mapped page is the first page of a live span:
      stale entries lie strictly inside spans, behind that span's first page. */
  lemma NextIsLive(h: Heap, start: PageID, p: PageID, aggressive: bool)
    requires Sound(h, {}, {}, aggressive) && AtBoundary(h, start) && LeastEntry(h, start, p)
    ensures IsNext(h, start, h.pagemap[p]) && p in h.owner && h.pagemap[p] == h.owner[p]
  {
    hide Listing, Coalesced, Balanced, Mapped, Tiling;
    forall b | b in h.spans ensures h.spans[b].start in h.pagemap && h.pagemap[h.spans[b].start] == b {
      EndsLookup(h.spans, h.owner, h.pagemap, b);
    }
    EntryAt(h.spans, h.owner, h.pagemap, p);
    TilingAt(h.spans, h.owner, p);
    OwnedAt(h.spans, h.owner, h.owner[p], start);
  }

  /** From the inside of a span, the least mapped page is inside it as well. If
      its entry is not stale, the answer is that span, which starts below. */
  lemma NextInside(h: Heap, start: PageID, p: PageID, aggressive: bool)
    requires Sound(h, {}, {}, aggressive) && !AtBoundary(h, start) && LeastEntry(h, start, p)
    ensures p in h.owner && IsAround(h, start, h.owner[p])
    ensures IsNext(h, start, h.pagemap[p]) ==> h.pagemap[p] != h.owner[p]
    ensures h.spans[h.owner[p]].sizeclass != 0 ==> p == start && h.pagemap[p] == h.owner[p]
  {
    hide Listing, Coalesced, Balanced, Mapped, Tiling;
    var a := h.owner[start];
    TilingAt(h.spans, h.owner, start);
    EndsLookup(h.spans, h.owner, h.pagemap, a);
    OwnedAt(h.spans, h.owner, a, p);
    EntryAt(h.spans, h.owner, h.pagemap, start);
  }

  lemma NoneStarts(h: Heap, page: PageID, aggressive: bool)
    requires Sound(h, {}, {}, aggressive) && forall b | b in h.spans :: h.spans[b].End() <= page
    ensures forall b | b in h.spans :: h.spans[b].start < page
  {
    hide Listing, Coalesced, Balanced, Mapped;
  }

  lemma LastStart(h: Heap, aggressive: bool) returns (bound: nat)
    requires Sound(h, {}, {}, aggressive)
    ensures forall b | b in h.spans :: h.spans[b].start <= bound
  {
    bound := Above(h.owner.Keys);
    forall b | b in h.spans ensures h.spans[b].start <= bound {
      EndsOwned(h.spans, h.owner, b);
    }
  }

  lemma StartsAtBoundary(h: Heap, aggressive: bool)
    requires Sound(h, {}, {}, aggressive)
    ensures AtBoundary(h, 1) && ListedBetween(h, 1, [], 1)
  {
    if 1 in h.owner { assert h.spans[h.owner[1]].Covers(1); }
  }

  /** The page after a live span is a boundary, and nothing starts in between. */
  lemma NextBoundary(h: Heap, page: PageID, a: SpanPtr, aggressive: bool)
    requires Sound(h, {}, {}, aggressive) && IsNext(h, page, a)
    ensures AtBoundary(h, h.spans[a].End()) && h.spans[a].length > 0
    ensures forall b | b in h.spans && h.spans[b].start < h.spans[a].End() :: b == a || h.spans[b].start < page
  {
    hide Listing, Coalesced, Balanced;
    NeighbourLookups(h.spans, h.owner, h.pagemap, a);
    SpanFacts(h.spans, h.owner);
    forall b | b in h.spans && h.spans[b].start < h.spans[a].End() && b != a ensures h.spans[b].start < page {
      SpansDisjoint(h.spans, h.owner, a, b);
    }
  }

  lemma AllocatedSame(spans: Spans, spans1: Spans, spans2: Spans, r: SpanPtr, n: nat)
    requires Used(spans1) == Used(spans) && Allocated(spans1, spans2, r, n)
    ensures Allocated(spans, spans2, r, n)
  {
  }

  lemma SoundEnds(h: Heap, a: SpanPtr, aggressive: bool)
    requires Sound(h, {}, {}, aggressive) && a in h.spans
    ensures h.spans[a].length > 0
    ensures h.spans[a].start in h.pagemap && h.pagemap[h.spans[a].start] == a
    ensures h.spans[a].End() - 1 in h.pagemap && h.pagemap[h.spans[a].End() - 1] == a
  {
    EndsLookup(h.spans, h.owner, h.pagemap, a);
    SpanFacts(h.spans, h.owner);
  }

  /** What CheckList checks of a member of a free list always holds. */
  lemma CheckPasses(h: Heap, location: Location, bin: nat, x: Node, aggressive: bool)
    requires Sound(h, {}, {}, aggressive) && Head(location, bin) in h.lists && x in h.lists[Head(location, bin)]
    ensures x.At? && x.ptr in h.spans && h.spans[x.ptr].location == location
    ensures if bin < MAX_PAGES then h.spans[x.ptr].length == bin else h.spans[x.ptr].length >= MAX_PAGES
    ensures var s := h.spans[x.ptr];
            s.start in h.pagemap && h.pagemap[s.start] == x.ptr && s.End() - 1 in h.pagemap && h.pagemap[s.End() - 1] == x.ptr
    ensures h.stats.systemBytes <= ToBytes(MAX_LISTED) ==> h.spans[x.ptr].length <= MAX_LISTED
  {
    hide Layout, Listing, Coalesced, Balanced, Interval;
    ListMember(h, Head(location, bin), x, aggressive);
    SoundEnds(h, x.ptr, aggressive);
    FreeCounted(h, x.ptr, aggressive);
    StatsNonnegative(h, {}, {}, aggressive);
  }

  lemma GrantedSame(h: Heap, p: PageID, k: nat)
    ensures Granted(h, p, k).spans == h.spans && Granted(h, p, k).owner == h.owner
    ensures Granted(h, p, k).obtained == h.obtained + Interval(p, p + k)
  {
  }

  lemma AccountFresh(obtained: set<PageID>, managed: set<PageID>, leaked: set<PageID>, p: PageID, k: nat)
    requires Accounted(obtained, managed, leaked) && Unseen(obtained, p, k)
    ensures var x := Interval(p, p + k);
            Accounted(obtained + x, managed, leaked + x) && Accounted(obtained + x, managed + x, leaked)
  {
    hide Interval, Unseen, Accounted;
    UnseenApart(obtained, p, k);
    AccountApart(obtained, managed, leaked, Interval(p, p + k));
  }

  lemma FreshRest(obtained: set<PageID>, p: PageID, k: nat)
    requires Unseen(obtained, p, k)
    ensures obtained + Interval(p, p + k) - obtained == Interval(p, p + k)
  {
    hide Interval, Unseen;
    UnseenApart(obtained, p, k);
  }

  lemma UnseenApart(obtained: set<PageID>, p: PageID, k: nat)
    requires Unseen(obtained, p, k)
    ensures Interval(p, p + k) !! obtained
  {
  }

  lemma AccountApart(obtained: set<PageID>, managed: set<PageID>, leaked: set<PageID>, x: set<PageID>)
    requires Accounted(obtained, managed, leaked) && x !! obtained
    ensures Accounted(obtained + x, managed, leaked + x) && Accounted(obtained + x, managed + x, leaked)
  {
    assert obtained + x == managed + (leaked + x) && obtained + x == (managed + x) + leaked;
  }

  lemma GrantedFresh(h: Heap, p: PageID, k: nat)
    requires h.owner.Keys <= h.obtained && Unseen(h.obtained, p, k)
    ensures Fresh(Granted(h, p, k), p, k)
  {
  }

  /** No list node is its own header. */
  lemma HeadApart(h: Heap, l: Node, aggressive: bool)
    requires Sound(h, {}, {}, aggressive) && l in h.lists
    ensures forall j | 0 <= j < |h.lists[l]| :: h.lists[l][j] != l
  {
    forall j | 0 <= j < |h.lists[l]| ensures h.lists[l][j] != l {
      assert h.lists[l][j] in h.lists[l];
      assert h.lists[l][j].At? && l.Head?;
    }
  }

  lemma SoundNonnull(h: Heap, a: SpanPtr, aggressive: bool)
    requires Sound(h, {}, {}, aggressive) && a in h.spans
    ensures a != NULL
  {
    SpanFacts(h.spans, h.owner);
  }

  lemma LargeHeads(spans: Spans)
    ensures forall b | b in spans && spans[b].Free() && spans[b].length >= MAX_PAGES ::
              HeadOf(spans[b]) == Head(Normal, MAX_PAGES) || HeadOf(spans[b]) == Head(Returned, MAX_PAGES)
  {
  }

  /** What the two search loops have found. */
  lemma BestOfTwo(h: Heap, bestNormal: SpanPtr, best: SpanPtr, n: nat, aggressive: bool)
    requires Sound(h, {}, {}, aggressive)
    requires bestNormal != NULL ==> LargeFit(h.spans, bestNormal, n) && h.spans[bestNormal].location == Normal
    requires best != NULL && best != bestNormal ==> LargeFit(h.spans, best, n) && h.spans[best].location == Returned
    requires bestNormal != NULL ==> best != NULL
    requires forall b | LargeFit(h.spans, b, n) :: best != NULL && NoWorse(h.spans[best], h.spans[b])
    ensures NormalWins(h.spans, n) <==> bestNormal != NULL && best == bestNormal
    ensures best != NULL ==> BestLarge(h.spans, best, n)
  {
    hide Listing, Coalesced, Balanced, Interval;
    forall a | LargeFit(h.spans, a, n) && NoWorse(h.spans[a], h.spans[best]) ensures a == best {
      assert Tiling(h.spans, h.owner) && best in h.spans;
      assert h.spans[a].start == h.spans[best].start;
      assert h.spans[a].Covers(h.spans[a].start) && h.owner[h.spans[a].start] == a;
      assert h.spans[best].Covers(h.spans[best].start);
    }
  }

  lemma FreeUnused(spans: Spans, a: SpanPtr)
    requires a in spans && spans[a].Free()
    ensures a !in Used(spans)
  {
  }

  lemma CarvedAllocated(spans: Spans, spans1: Spans, r: SpanPtr, n: nat)
    requires r in spans && r !in Used(spans) && Used(spans1) == Used(spans)[r := Span(spans[r].start, n, InUse, 0)]
    ensures Allocated(spans, spans1, r, n)
  {
    assert r in Used(spans1) && Used(spans1)[r] == spans1[r];
  }

  lemma AllocatedAfter(h: Heap, h1: Heap, spans: Spans, r: SpanPtr, n: nat)
    requires Grows(h, h1) && Allocated(h1.spans, spans, r, n)
    ensures Allocated(h.spans, spans, r, n)
  {
  }

  lemma HeadsListed(h: Heap, aggressive: bool)
    requires Sound(h, {}, {}, aggressive)
    ensures forall l, i: nat | l != InUse && i <= MAX_PAGES :: Head(l, i) in h.lists
  {
  }

  lemma AllSlotsEmpty(h: Heap, first: nat, aggressive: bool)
    requires Sound(h, {}, {}, aggressive) && first <= MAX_PAGES
    requires forall j: nat | j < MAX_PAGES + 1 :: ListAt(h, Slot(first, j)) == []
    ensures h.stats.freeBytes == 0
  {
    forall i: nat | i <= MAX_PAGES ensures h.lists[Head(Normal, i)] == [] {
      var j := if i >= first then i - first else i + MAX_PAGES + 1 - first;
      assert Slot(first, j) == i && ListAt(h, i) == [];
    }
    NoNormalSpans(h, aggressive);
  }

  lemma MovedNothing(stats: Stats)
    ensures Moved(stats, stats, 0)
  {
  }

  lemma MovedAdd(s0: Stats, s1: Stats, s2: Stats, m: nat, n: nat)
    requires Moved(s0, s1, m) && Moved(s1, s2, n)
    ensures Moved(s0, s2, m + n)
  {
  }

  /** `n` pages went from the normal lists to the returned ones. */
  ghost predicate Moved(stats: Stats, stats1: Stats, n: nat) {
    stats1 == Commit(Adjust(Adjust(stats, Normal, -(n as int)), Returned, n), -(n as int))
  }

  lemma SoundHeads(h: Heap, a: SpanPtr, away: set<PageID>)
    requires Sound(h, {a}, away, true) && a in h.spans && h.spans[a].Free()
    ensures HeadOf(h.spans[a]) in h.lists
  {
    hide Layout, Coalesced, Balanced;
  }

  lemma AwayFacts(h: Heap, a: SpanPtr, away: set<PageID>, aggressive: bool)
    requires a in h.spans && h.spans[a].Free() && AwayRight(h, a, away, aggressive)
    ensures aggressive ==> h.spans[a].location == Normal && away <= SpanPages(h.spans[a])
    ensures !aggressive ==> away == ReturnedPages(h.spans[a])
    ensures SpanPages(h.spans[a]) == ReturnedPages(h.spans[a].(location := Returned))
  {
  }

  lemma RelistGrows(h: Heap, a: SpanPtr)
    requires a in h.spans && HeadOf(h.spans[a]) in h.lists
    ensures Grows(h, Relisted(h, a))
    ensures Relisted(h, a).stats == Adjust(h.stats, h.spans[a].location, h.spans[a].length)
    ensures Relisted(h, a).stats.systemBytes == h.stats.systemBytes
  {
  }

  lemma StartAway(h: Heap, a: SpanPtr, aggressive: bool)
    requires a in h.spans && h.spans[a].Free() && (aggressive ==> h.spans[a].location == Normal)
    ensures AwayRight(h, a, ReturnedPages(h.spans[a]), aggressive)
    ensures aggressive ==> ReturnedPages(h.spans[a]) == {}
  {
  }

  lemma RightMerge(h: Heap, a: SpanPtr, b: SpanPtr, away: set<PageID>, aggressive: bool)
    requires a in h.spans && h.spans[a].Free() && Sound(h, {a}, away, aggressive)
    requires b != NULL && SideChoice(h, a, false, b, aggressive) && OnItsList(h, b)
    requires h.spans[b].length > 0 && SettledLeft(h.spans, a, aggressive)
    ensures SettledLeft(Absorbed(h, a, b).spans, a, aggressive)
  {
    hide Sound, MayMerge, Absorbed, SettledLeft;
    NeighbourFacts(h, a, false, b, away, aggressive);
    LeftStaysSettled(h, a, b, aggressive);
  }

  lemma FreshPointer(used: set<SpanPtr>)
    ensures exists a: SpanPtr :: a != NULL && a !in used
  {
    var bound := Above(used);
    assert bound + 1 !in used;
  }
}
