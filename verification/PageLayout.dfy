/** The page-level layout that page_heap.cc maintains, on values: span
    descriptors, the ideal page table they induce, the real page map with its
    stale entries, and the free lists.

    `spans` is the memory of live Span descriptors. A pointer outside its keys
    is free for the span allocator to hand out again, so a stale page map entry
    can name a dead or a recycled descriptor. `owner` is the ideal page table:
    it sends every page the heap manages to the one live span that covers it. */
module PageLayout {
  /** A page is 8192 bytes (kPageShift is 13). */
  function ToBytes(pages: int): int { pages * 8192 }

  type PageID = nat
  type SpanPtr = nat

  const NULL: SpanPtr := 0

  datatype Location = InUse | Normal | Returned

  datatype Span = Span(start: PageID, length: nat, location: Location, sizeclass: nat) {
    function End(): PageID { start + length }
    predicate Free() { location != InUse }
    ghost predicate Covers(p: PageID) { start <= p < start + length }
    /** The pages whose page map entry is ever read while the span lives. */
    ghost predicate NeedsEntry(p: PageID) { p == start || p == start + length - 1 || sizeclass != 0 }
    function Bytes(): int { ToBytes(length) }
  }

  type Spans = map<SpanPtr, Span>
  type Owner = map<PageID, SpanPtr>
  type PageMap = map<PageID, SpanPtr>

  // ----- the layout invariant

  ghost predicate WellFormed(spans: Spans) {
    forall a | a in spans ::
      && a != NULL && spans[a].start > 0 && spans[a].length > 0
      && (spans[a].Free() ==> spans[a].sizeclass == 0)
  }

  /** Every managed page is covered by exactly one live span. */
  ghost predicate Tiling(spans: Spans, owner: Owner) {
    && WellFormed(spans)
    && (forall p | p in owner :: owner[p] in spans && spans[owner[p]].Covers(p))
    && (forall a, p | a in spans && spans[a].Covers(p) :: p in owner && owner[p] == a)
  }

  /** Entries exist only for managed pages, and agree with the ideal table at
      both ends of every span and on every page of a size-class span. */
  ghost predicate Mapped(spans: Spans, owner: Owner, pagemap: PageMap) {
    && (forall p | p in pagemap :: p in owner)
    && (forall p | p in owner && owner[p] in spans && spans[owner[p]].NeedsEntry(p) ::
          p in pagemap && pagemap[p] == owner[p])
  }

  /** The spans in use: all that a client of the page heap can see. */
  function Used(spans: Spans): Spans {
    map a | a in spans && spans[a].location == InUse :: spans[a]
  }

  /** Free extents only grow: every page of a free span stays in a free span
      that covers at least the same pages. */
  ghost predicate FreeGrows(spans0: Spans, owner0: Owner, spans1: Spans, owner1: Owner) {
    forall p | p in owner0 && owner0[p] in spans0 && spans0[owner0[p]].Free() ::
      && p in owner1 && owner1[p] in spans1 && spans1[owner1[p]].Free()
      && spans1[owner1[p]].start <= spans0[owner0[p]].start
      && spans0[owner0[p]].End() <= spans1[owner1[p]].End()
  }

  // ----- consequences

  lemma TilingAt(spans: Spans, owner: Owner, p: PageID)
    requires Tiling(spans, owner)
    ensures p in owner ==> owner[p] in spans && spans[owner[p]].Covers(p)
  {
  }

  lemma OwnedAt(spans: Spans, owner: Owner, a: SpanPtr, p: PageID)
    requires Tiling(spans, owner) && a in spans
    ensures spans[a].Covers(p) ==> p in owner && owner[p] == a
  {
  }

  lemma EntryAt(spans: Spans, owner: Owner, pagemap: PageMap, p: PageID)
    requires Mapped(spans, owner, pagemap)
    ensures p in pagemap ==> p in owner
    ensures p in owner && owner[p] in spans && spans[owner[p]].NeedsEntry(p) ==> p in pagemap && pagemap[p] == owner[p]
  {
  }

  lemma MakeTiling(spans: Spans, owner: Owner)
    requires WellFormed(spans)
    requires forall p | p in owner :: owner[p] in spans && spans[owner[p]].Covers(p)
    requires forall a, p: PageID | a in spans && spans[a].Covers(p) :: p in owner && owner[p] == a
    ensures Tiling(spans, owner)
  {
  }

  lemma MakeMapped(spans: Spans, owner: Owner, pagemap: PageMap)
    requires forall p | p in pagemap :: p in owner
    requires forall p | p in owner && owner[p] in spans && spans[owner[p]].NeedsEntry(p) ::
               p in pagemap && pagemap[p] == owner[p]
    ensures Mapped(spans, owner, pagemap)
  {
  }

  lemma SpanFacts(spans: Spans, owner: Owner)
    requires Tiling(spans, owner)
    ensures WellFormed(spans)
  {
  }

  lemma EndsOwned(spans: Spans, owner: Owner, a: SpanPtr)
    requires Tiling(spans, owner) && a in spans
    ensures spans[a].start in owner && owner[spans[a].start] == a
    ensures spans[a].End() - 1 in owner && owner[spans[a].End() - 1] == a
  {
    assert spans[a].Covers(spans[a].start) && spans[a].Covers(spans[a].End() - 1);
  }

  lemma SpansDisjoint(spans: Spans, owner: Owner, a: SpanPtr, b: SpanPtr)
    requires Tiling(spans, owner) && a in spans && b in spans && a != b
    ensures spans[a].End() <= spans[b].start || spans[b].End() <= spans[a].start
  {
    EndsOwned(spans, owner, a);
    EndsOwned(spans, owner, b);
    if spans[a].start <= spans[b].start < spans[a].End() {
      assert spans[a].Covers(spans[b].start);
    } else if spans[b].start <= spans[a].start < spans[b].End() {
      assert spans[b].Covers(spans[a].start);
    }
  }

  /** The two lookups of MergeIntoFreeList: the page before a live span, and the
      page after it, are mapped exactly when they are managed, and then to the
      live span that ends, respectively starts, there. */
  lemma NeighbourLookups(spans: Spans, owner: Owner, pagemap: PageMap, a: SpanPtr)
    requires Tiling(spans, owner) && Mapped(spans, owner, pagemap) && a in spans
    ensures var q := spans[a].start - 1;
            && (q in pagemap <==> q in owner)
            && (q in pagemap ==> var b := pagemap[q];
                 b == owner[q] && b in spans && b != a && spans[b].End() == spans[a].start)
    ensures var q := spans[a].End();
            && (q in pagemap <==> q in owner)
            && (q in pagemap ==> var b := pagemap[q];
                 b == owner[q] && b in spans && b != a && spans[b].start == spans[a].End())
  {
    var before, after := spans[a].start - 1, spans[a].End();
    if before in owner {
      var b := owner[before];
      assert spans[b].Covers(before);
      SpansDisjoint(spans, owner, a, b);
      assert spans[b].NeedsEntry(before);
    }
    if after in owner {
      var b := owner[after];
      assert spans[b].Covers(after);
      SpansDisjoint(spans, owner, a, b);
      assert spans[b].NeedsEntry(after);
    }
  }

  /** Every live span is found from its first and its last page. */
  lemma EndsLookup(spans: Spans, owner: Owner, pagemap: PageMap, a: SpanPtr)
    requires Tiling(spans, owner) && Mapped(spans, owner, pagemap) && a in spans
    ensures spans[a].start in pagemap && pagemap[spans[a].start] == a
    ensures spans[a].End() - 1 in pagemap && pagemap[spans[a].End() - 1] == a
  {
    EndsOwned(spans, owner, a);
    assert spans[a].NeedsEntry(spans[a].start) && spans[a].NeedsEntry(spans[a].End() - 1);
  }

  // ----- cutting a span in two

  function CutSpans(spans: Spans, a: SpanPtr, n: nat, l: SpanPtr, first: Location, rest: Location): Spans
    requires a in spans && n <= spans[a].length
  {
    var s := spans[a];
    spans[l := Span(s.start + n, s.length - n, rest, 0)][a := s.(length := n, location := first)]
  }

  function CutOwner(owner: Owner, s: Span, n: nat, l: SpanPtr): Owner {
    map p | p in owner :: if s.start + n <= p < s.End() then l else owner[p]
  }

  function CutPageMap(pagemap: PageMap, s: Span, n: nat, a: SpanPtr, l: SpanPtr): PageMap
    requires 0 < n < s.length
  {
    pagemap[s.start + n := l][s.End() - 1 := l][s.start + n - 1 := a]
  }

  lemma CutTiling(spans: Spans, owner: Owner, a: SpanPtr, n: nat, l: SpanPtr, first: Location, rest: Location)
    requires Tiling(spans, owner) && a in spans && l !in spans && l != NULL
    requires 0 < n < spans[a].length && spans[a].sizeclass == 0
    ensures Tiling(CutSpans(spans, a, n, l, first, rest), CutOwner(owner, spans[a], n, l))
  {
    hide Tiling;
    SpanFacts(spans, owner);
    var s1, o1 := CutSpans(spans, a, n, l, first, rest), CutOwner(owner, spans[a], n, l);
    forall p | p in o1 ensures o1[p] in s1 && s1[o1[p]].Covers(p) {
      TilingAt(spans, owner, p);
      OwnedAt(spans, owner, a, p);
    }
    forall b, p: PageID | b in s1 && s1[b].Covers(p) ensures p in o1 && o1[p] == b {
      OwnedAt(spans, owner, a, p);
      if b != l { OwnedAt(spans, owner, b, p); }
    }
    MakeTiling(s1, o1);
  }

  lemma CutMapped(spans: Spans, owner: Owner, pagemap: PageMap, a: SpanPtr, n: nat, l: SpanPtr,
                  first: Location, rest: Location)
    requires Tiling(spans, owner) && Mapped(spans, owner, pagemap)
    requires a in spans && l !in spans && l != NULL && 0 < n < spans[a].length && spans[a].sizeclass == 0
    ensures Mapped(CutSpans(spans, a, n, l, first, rest), CutOwner(owner, spans[a], n, l),
                   CutPageMap(pagemap, spans[a], n, a, l))
  {
    hide Tiling, Mapped;
    var s := spans[a];
    var s1, o1, m1 := CutSpans(spans, a, n, l, first, rest), CutOwner(owner, s, n, l), CutPageMap(pagemap, s, n, a, l);
    forall p | p in o1 && o1[p] in s1 && s1[o1[p]].NeedsEntry(p) ensures p in m1 && m1[p] == o1[p] {
      TilingAt(spans, owner, p);
      OwnedAt(spans, owner, a, p);
      EntryAt(spans, owner, pagemap, p);
      CutMappedAt(spans, owner, pagemap, a, n, l, first, rest, p);
    }
    forall p | p in m1 ensures p in o1 {
      EntryAt(spans, owner, pagemap, p);
      OwnedAt(spans, owner, a, p);
    }
    MakeMapped(s1, o1, m1);
  }

  lemma CutMappedAt(spans: Spans, owner: Owner, pagemap: PageMap, a: SpanPtr, n: nat, l: SpanPtr,
                    first: Location, rest: Location, p: PageID)
    requires a in spans && l !in spans && 0 < n < spans[a].length && spans[a].sizeclass == 0
    requires p in owner && owner[p] in spans && spans[owner[p]].Covers(p)
    requires owner[p] != a ==> !spans[a].Covers(p)
    requires spans[owner[p]].NeedsEntry(p) ==> p in pagemap && pagemap[p] == owner[p]
    ensures var s1, o1 := CutSpans(spans, a, n, l, first, rest), CutOwner(owner, spans[a], n, l);
            var m1 := CutPageMap(pagemap, spans[a], n, a, l);
            o1[p] in s1 && (s1[o1[p]].NeedsEntry(p) ==> p in m1 && m1[p] == o1[p])
  {
  }

  // ----- joining two adjacent spans

  /** Span `b` is merged into its neighbour `a`, and its descriptor dies. */
  function JoinSpans(spans: Spans, a: SpanPtr, b: SpanPtr): Spans
    requires a in spans && b in spans
  {
    var s, t := spans[a], spans[b];
    (spans - {b})[a := s.(start := if t.start < s.start then t.start else s.start, length := s.length + t.length)]
  }

  function JoinOwner(owner: Owner, a: SpanPtr, b: SpanPtr): Owner {
    map p | p in owner :: if owner[p] == b then a else owner[p]
  }

  ghost predicate Adjacent(s: Span, t: Span) {
    s.End() == t.start || t.End() == s.start
  }

  lemma JoinTiling(spans: Spans, owner: Owner, a: SpanPtr, b: SpanPtr)
    requires Tiling(spans, owner) && a in spans && b in spans && a != b && Adjacent(spans[a], spans[b])
    ensures Tiling(JoinSpans(spans, a, b), JoinOwner(owner, a, b))
  {
    hide Tiling;
    SpanFacts(spans, owner);
    var s1, o1 := JoinSpans(spans, a, b), JoinOwner(owner, a, b);
    forall p | p in o1 ensures o1[p] in s1 && s1[o1[p]].Covers(p) {
      TilingAt(spans, owner, p);
    }
    forall c, p: PageID | c in s1 && s1[c].Covers(p) ensures p in o1 && o1[p] == c {
      OwnedAt(spans, owner, a, p);
      OwnedAt(spans, owner, b, p);
      OwnedAt(spans, owner, c, p);
    }
    MakeTiling(s1, o1);
  }

  /** Only the new far end is recorded: the other entries of `b` go stale. */
  lemma JoinMapped(spans: Spans, owner: Owner, pagemap: PageMap, a: SpanPtr, b: SpanPtr, e: PageID)
    requires Tiling(spans, owner) && Mapped(spans, owner, pagemap)
    requires a in spans && b in spans && a != b && Adjacent(spans[a], spans[b]) && spans[a].sizeclass == 0
    requires e == if spans[b].End() == spans[a].start then spans[b].start else spans[b].End() - 1
    ensures Mapped(JoinSpans(spans, a, b), JoinOwner(owner, a, b), pagemap[e := a])
  {
    hide Tiling, Mapped;
    SpanFacts(spans, owner);
    var s1, o1, m1 := JoinSpans(spans, a, b), JoinOwner(owner, a, b), pagemap[e := a];
    EndsOwned(spans, owner, b);
    forall p | p in o1 && o1[p] in s1 && s1[o1[p]].NeedsEntry(p) ensures p in m1 && m1[p] == o1[p] {
      TilingAt(spans, owner, p);
      EntryAt(spans, owner, pagemap, p);
      JoinMappedAt(spans, owner, pagemap, a, b, e, p);
    }
    forall p | p in m1 ensures p in o1 {
      EntryAt(spans, owner, pagemap, p);
    }
    MakeMapped(s1, o1, m1);
  }

  lemma JoinMappedAt(spans: Spans, owner: Owner, pagemap: PageMap, a: SpanPtr, b: SpanPtr, e: PageID, p: PageID)
    requires a in spans && b in spans && a != b && Adjacent(spans[a], spans[b]) && spans[a].sizeclass == 0
    requires spans[a].length > 0 && spans[b].length > 0
    requires e == if spans[b].End() == spans[a].start then spans[b].start else spans[b].End() - 1
    requires p in owner && owner[p] in spans && spans[owner[p]].Covers(p)
    requires p == e ==> owner[p] == b
    requires spans[owner[p]].NeedsEntry(p) ==> p in pagemap && pagemap[p] == owner[p]
    ensures var s1, o1, m1 := JoinSpans(spans, a, b), JoinOwner(owner, a, b), pagemap[e := a];
            o1[p] in s1 && (s1[o1[p]].NeedsEntry(p) ==> p in m1 && m1[p] == o1[p])
  {
  }
}
