/** The page heap's state as one value, the effect of each allocator step on it
    as a function, and the proof that every step keeps the heap sound. */
module HeapState {
  import opened Sequences
  import opened SpanLists
  import opened PageLayout
  import opened FreeSpans

  /** `owner` and `backed` are ghost knowledge: the ideal page table, and the
      pages that are committed. The rest is what the PageHeap object stores. */
  datatype Heap = Heap(spans: Spans, owner: Owner, pagemap: PageMap, lists: Lists,
                       obtained: set<PageID>, backed: set<PageID>, stats: Stats)

  /** The heap invariant, for a heap whose free spans in `off` are in transit
      between lists and whose pages in `away` are decommitted but not listed. */
  ghost predicate Sound(h: Heap, off: set<SpanPtr>, away: set<PageID>, aggressive: bool) {
    && Layout(h.spans, h.owner, h.pagemap)
    && Listing(Listed(h.spans, off), h.lists)
    && Coalesced(Listed(h.spans, off), aggressive)
    && Balanced(Listed(h.spans, off), h.owner, h.obtained, h.backed, away, h.stats)
  }

  ghost predicate OnItsList(h: Heap, a: SpanPtr) {
    a in h.spans && h.spans[a].Free() && HeadOf(h.spans[a]) in h.lists && At(a) in h.lists[HeadOf(h.spans[a])]
  }

  lemma EmptySound(lists: Lists, aggressive: bool)
    requires forall h | h in lists :: h.Head? && lists[h] == []
    requires forall l, i: nat | l != InUse && i <= MAX_PAGES :: Head(l, i) in lists
    ensures Sound(Heap(map[], map[], map[], lists, {}, {}, Stats(0, 0, 0, 0)), {}, {}, aggressive)
  {
    assert Pages(Listed(map[], {}), map[], Normal) == {} && Pages(Listed(map[], {}), map[], Returned) == {};
  }

  lemma SoundListed(h: Heap, off: set<SpanPtr>, away: set<PageID>, aggressive: bool, a: SpanPtr)
    requires Sound(h, off, away, aggressive) && a in h.spans && h.spans[a].Free() && a !in off
    ensures OnItsList(h, a)
  {
    ListedAt(h.spans, off, h.lists, a);
  }

  lemma SoundLinks(h: Heap, off: set<SpanPtr>, away: set<PageID>, aggressive: bool, home: map<Node, Node>)
    requires Sound(h, off, away, aggressive) && Homed(h.lists, home)
    ensures forall x | x in h.lists || x in home :: x.At? ==> x.ptr in h.spans && x.ptr !in off
    ensures forall l, i: nat | l != InUse :: Head(l, Bin(i)) in h.lists
  {
    hide Layout, Coalesced, Balanced, Interval;
    AllLinked(h.spans, off, h.lists, home);
    LinkedListed(Listed(h.spans, off), h.lists, home);
  }

  // ----- steps

  function Unlisted(h: Heap, a: SpanPtr): Heap
    requires a in h.spans && HeadOf(h.spans[a]) in h.lists
  {
    var s := h.spans[a];
    h.(lists := UnlistedLists(h.lists, s, a), stats := Adjust(h.stats, s.location, -(s.length as int)))
  }

  function Relisted(h: Heap, a: SpanPtr): Heap
    requires a in h.spans && HeadOf(h.spans[a]) in h.lists
  {
    var s := h.spans[a];
    h.(lists := RelistedLists(h.lists, s, a), stats := Adjust(h.stats, s.location, s.length))
  }

  function Committed(h: Heap, a: SpanPtr): Heap
    requires a in h.spans
  {
    h.(backed := h.backed + SpanPages(h.spans[a]), stats := Commit(h.stats, h.spans[a].length))
  }

  function Decommitted(h: Heap, a: SpanPtr): Heap
    requires a in h.spans
  {
    h.(backed := h.backed - SpanPages(h.spans[a]), stats := Commit(h.stats, -(h.spans[a].length as int)))
  }

  /** A span taken from a returned list has to be committed again. */
  function Recommitted(backed: set<PageID>, s: Span, n: nat): set<PageID> {
    if s.location == Returned then backed + Interval(s.start, s.start + n) else backed
  }

  function RecommitStats(stats: Stats, s: Span, n: nat): Stats {
    if s.location == Returned then Commit(stats, n) else stats
  }

  /** The free span `a` is taken whole. */
  function CarvedWhole(h: Heap, a: SpanPtr): Heap
    requires a in h.spans && HeadOf(h.spans[a]) in h.lists
  {
    var s := h.spans[a];
    h.(spans := h.spans[a := s.(location := InUse)],
       lists := UnlistedLists(h.lists, s, a),
       backed := Recommitted(h.backed, s, s.length),
       stats := RecommitStats(Adjust(h.stats, s.location, -(s.length as int)), s, s.length))
  }

  /** The first `n` pages of the free span `a` are taken; `l` is the rest. */
  function CarvedPart(h: Heap, a: SpanPtr, n: nat, l: SpanPtr): Heap
    requires a in h.spans && 0 < n < h.spans[a].length && HeadOf(h.spans[a]) in h.lists
    requires HeadOf(Remainder(h.spans[a], n)) in h.lists
  {
    var s := h.spans[a];
    Heap(CutSpans(h.spans, a, n, l, InUse, s.location), CutOwner(h.owner, s, n, l), CutPageMap(h.pagemap, s, n, a, l),
         RelistedLists(UnlistedLists(h.lists, s, a), Remainder(s, n), l), h.obtained,
         Recommitted(h.backed, s, n), RecommitStats(Adjust(h.stats, s.location, -(n as int)), s, n))
  }

  function InUsed(h: Heap, a: SpanPtr): Heap
    requires a in h.spans
  {
    h.(spans := h.spans[a := h.spans[a].(location := InUse)])
  }

  /** The pages of `a` beyond the first `n` become a listed span of their own. */
  function RemainderKept(h: Heap, a: SpanPtr, n: nat, l: SpanPtr, location: Location): Heap
    requires a in h.spans && 0 < n < h.spans[a].length
    requires HeadOf(Remainder(h.spans[a], n).(location := location)) in h.lists
  {
    var rest := Remainder(h.spans[a], n).(location := location);
    h.(spans := h.spans[l := rest][a := h.spans[a].(length := n)],
       pagemap := CutPageMap(h.pagemap, h.spans[a], n, a, l),
       owner := CutOwner(h.owner, h.spans[a], n, l),
       lists := RelistedLists(h.lists, rest, l),
       stats := Adjust(h.stats, location, rest.length))
  }

  lemma StepFacts(h: Heap, a: SpanPtr)
    requires OnItsList(h, a)
    ensures HeadOf(h.spans[a]) in h.lists
  {
  }

  /** The steps of Carve add up to its effect. */
  lemma CarvePartSteps(h: Heap, a: SpanPtr, n: nat, l: SpanPtr)
    requires OnItsList(h, a) && 0 < n < h.spans[a].length && l !in h.spans
    requires HeadOf(Remainder(h.spans[a], n)) in h.lists
    ensures var k := RemainderKept(InUsed(Unlisted(h, a), a), a, n, l, h.spans[a].location);
            (if h.spans[a].location == Returned then Committed(k, a) else k) == CarvedPart(h, a, n, l)
  {
    hide Bin, HeadOf, NoDup, RelistedLists, UnlistedLists, CutOwner, CutPageMap, Interval;
    CutSame(h.owner, h.pagemap, h.spans[a], InUsed(h, a).spans[a], n, a, l);
  }

  /** Cutting does not look at the location. */
  lemma CutSame(owner: Owner, pagemap: PageMap, s: Span, s1: Span, n: nat, a: SpanPtr, l: SpanPtr)
    requires s.start == s1.start && s.length == s1.length && 0 < n < s.length
    ensures CutOwner(owner, s, n, l) == CutOwner(owner, s1, n, l) && CutPageMap(pagemap, s, n, a, l) == CutPageMap(pagemap, s1, n, a, l)
  {
  }

  lemma CarveWholeSteps(h: Heap, a: SpanPtr)
    requires OnItsList(h, a)
    ensures var k := InUsed(Unlisted(h, a), a);
            (if h.spans[a].location == Returned then Committed(k, a) else k) == CarvedWhole(h, a)
  {
  }

  lemma CarveWholeSound(h: Heap, a: SpanPtr, aggressive: bool)
    requires Sound(h, {}, {}, aggressive) && OnItsList(h, a) && NoDup(h.lists[HeadOf(h.spans[a])])
    ensures Sound(CarvedWhole(h, a), {}, {}, aggressive)
    ensures Used(CarvedWhole(h, a).spans) == Used(h.spans)[a := h.spans[a].(location := InUse, sizeclass := 0)]
  {
    hide Layout, Listing, Coalesced, Balanced, Listed, Used, NoDup, Interval;
    ListedAt(h.spans, {}, h.lists, a);
    CarveWhole(h.spans, h.owner, h.pagemap, h.lists, a, aggressive);
    CarveWholeBooks(h.spans, h.owner, h.pagemap, Listed(h.spans, {}), a, h.obtained, h.backed, h.stats);
  }

  lemma CarvePartSound(h: Heap, a: SpanPtr, n: nat, l: SpanPtr, aggressive: bool)
    requires Sound(h, {}, {}, aggressive) && OnItsList(h, a) && NoDup(h.lists[HeadOf(h.spans[a])])
    requires 0 < n < h.spans[a].length && l !in h.spans && l != NULL
    requires HeadOf(Remainder(h.spans[a], n)) in h.lists
    ensures Sound(CarvedPart(h, a, n, l), {}, {}, aggressive)
    ensures Used(CarvedPart(h, a, n, l).spans) == Used(h.spans)[a := Span(h.spans[a].start, n, InUse, 0)]
  {
    hide Layout, Listing, Coalesced, Balanced, Listed, Used, NoDup, Interval;
    ListedAt(h.spans, {}, h.lists, a);
    CarvePart(h.spans, h.owner, h.pagemap, h.lists, a, n, l, aggressive);
    CarvePartBooks(h.spans, h.owner, h.pagemap, Listed(h.spans, {}), a, n, l, h.obtained, h.backed, h.stats);
  }

  // ----- merging

  /** The page whose entry has to be redirected when `b` is merged into `a`. */
  function FarEnd(s: Span, t: Span): PageID
    requires t.length > 0
  {
    if t.End() == s.start then t.start else t.End() - 1
  }

  /** The listed span `b` is merged into its neighbour `a`, which is in transit. */
  function Absorbed(h: Heap, a: SpanPtr, b: SpanPtr): Heap
    requires a in h.spans && b in h.spans && h.spans[b].length > 0 && HeadOf(h.spans[b]) in h.lists
  {
    Unlisted(h, b).(spans := JoinSpans(h.spans, a, b), owner := JoinOwner(h.owner, a, b),
                    pagemap := h.pagemap[FarEnd(h.spans[a], h.spans[b]) := a])
  }

  function ReturnedPages(s: Span): set<PageID> {
    if s.location == Returned then SpanPages(s) else {}
  }

  lemma AbsorbSound(h: Heap, a: SpanPtr, b: SpanPtr, away: set<PageID>, aggressive: bool)
    requires Sound(h, {a}, away, aggressive) && OnItsList(h, b) && NoDup(h.lists[HeadOf(h.spans[b])])
    requires a in h.spans && a != b && h.spans[a].Free() && Adjacent(h.spans[a], h.spans[b]) && h.spans[b].length > 0
    requires away !! SpanPages(h.spans[b])
    ensures Sound(Absorbed(h, a, b), {a}, away + ReturnedPages(h.spans[b]), aggressive)
    ensures Used(Absorbed(h, a, b).spans) == Used(h.spans)
  {
    hide Tiling, Mapped, Listing, Coalesced, Balanced, Listed, Used, NoDup, Interval;
    ListedAt(h.spans, {a}, h.lists, b);
    SpanFacts(h.spans, h.owner);
    JoinTiling(h.spans, h.owner, a, b);
    JoinMapped(h.spans, h.owner, h.pagemap, a, b, FarEnd(h.spans[a], h.spans[b]));
    JoinListed(h.spans, a, b);
    UnlistListing(Listed(h.spans, {a}), h.lists, b);
    CoalescedSubset(Listed(h.spans, {a}), b, aggressive);
    AbsorbBooks(h, a, b, away);
  }

  lemma AbsorbBooks(h: Heap, a: SpanPtr, b: SpanPtr, away: set<PageID>)
    requires Layout(h.spans, h.owner, h.pagemap) && a in h.spans && a != b && b in Listed(h.spans, {a})
    requires Balanced(Listed(h.spans, {a}), h.owner, h.obtained, h.backed, away, h.stats)
    requires away !! SpanPages(h.spans[b])
    ensures Balanced(Listed(h.spans, {a}) - {b}, JoinOwner(h.owner, a, b), h.obtained, h.backed,
                     away + ReturnedPages(h.spans[b]),
                     Adjust(h.stats, h.spans[b].location, -(h.spans[b].length as int)))
  {
    hide Tiling, Mapped, Pages, Balance, Interval;
    var listed := Listed(h.spans, {a});
    var normal, returned, x := Pages(listed, h.owner, Normal), Pages(listed, h.owner, Returned), SpanPages(h.spans[b]);
    JoinPages(h.spans, h.owner, listed, a, b, Normal);
    JoinPages(h.spans, h.owner, listed, a, b, Returned);
    if h.spans[b].location == Normal {
      LeaveNormal(normal, returned, h.obtained, h.backed, away, h.stats, x);
      assert returned - {} == returned && away + {} == away;
    } else {
      LeaveReturned(normal, returned, h.obtained, h.backed, away, h.stats, x);
      assert normal - {} == normal;
    }
  }

  /** A span with no mergeable neighbour goes back on a list. */
  lemma RelistSound(h: Heap, a: SpanPtr, aggressive: bool)
    requires a in h.spans && h.spans[a].Free() && Sound(h, {a}, ReturnedPages(h.spans[a]), aggressive)
    requires Settled(h.spans, a, aggressive) && HeadOf(h.spans[a]) in h.lists
    requires aggressive ==> h.spans[a].location == Returned
    ensures Sound(Relisted(h, a), {}, {}, aggressive)
  {
    hide Tiling, Mapped, Listing, Coalesced, Balanced, Listed, Interval;
    SpanFacts(h.spans, h.owner);
    RelistListed(h.spans, a);
    ListListing(Listed(h.spans, {a}), h.lists, a, h.spans[a]);
    ListCoalesced(h.spans, a, h.spans[a].location, aggressive);
    RelistBooks(h, a);
  }

  lemma RelistListed(spans: Spans, a: SpanPtr)
    requires a in spans && spans[a].Free()
    ensures a !in Listed(spans, {a}) && Listed(spans, {}) == Listed(spans, {a})[a := spans[a]]
    ensures Listed(spans, {}) - {a} == Listed(spans, {a})
  {
  }

  lemma RelistBooks(h: Heap, a: SpanPtr)
    requires Layout(h.spans, h.owner, h.pagemap) && a in h.spans && h.spans[a].Free()
    requires Balanced(Listed(h.spans, {a}), h.owner, h.obtained, h.backed, ReturnedPages(h.spans[a]), h.stats)
    ensures Balanced(Listed(h.spans, {}), h.owner, h.obtained, h.backed, {},
                     Adjust(h.stats, h.spans[a].location, h.spans[a].length))
  {
    hide Tiling, Mapped, Pages, Balance, Listed, SpanPages, Interval, Adjust;
    RelistListed(h.spans, a);
    var l0, l1 := Listed(h.spans, {a}), Listed(h.spans, {});
    UnlistPages(h.spans, h.owner, l1, a);
    var x := SpanPages(h.spans[a]);
    forall k: Location ensures Pages(l1, h.owner, k) == Pages(l0, h.owner, k) + (if k == h.spans[a].location then x else {}) {
      assert Pages(l0, h.owner, k) == Pages(l1, h.owner, k) - (if k == h.spans[a].location then x else {});
    }
    assert Pages(l1, h.owner, Normal) == Pages(l0, h.owner, Normal) || h.spans[a].location == Normal;
    assert Pages(l1, h.owner, Returned) == Pages(l0, h.owner, Returned) || h.spans[a].location == Returned;
    EnterBalance(Pages(l0, h.owner, Normal), Pages(l0, h.owner, Returned), Pages(l1, h.owner, Normal),
                 Pages(l1, h.owner, Returned), h.obtained, h.backed, ReturnedPages(h.spans[a]), h.stats, x,
                 h.spans[a].location);
  }

  /** When the system refuses to decommit an aggressively merged span, the books
      stay balanced exactly if nothing in it had been decommitted before, which
      is what the assertion on temp_committed demands. */
  lemma RefusedMerge(h: Heap, a: SpanPtr, away: set<PageID>)
    requires a in h.spans && h.spans[a].location == Normal && Sound(h, {a}, away, true)
    requires HeadOf(h.spans[a]) in h.lists
    ensures StillBalanced(Relisted(h, a).stats) <==> ToBytes(|away|) == 0
  {
    hide Layout, Listing, Coalesced, Pages;
  }

  predicate StillBalanced(stats: Stats) { stats.committedBytes + stats.unmappedBytes == stats.systemBytes }

  ghost predicate Grows(h: Heap, h1: Heap) {
    && FreeGrows(h.spans, h.owner, h1.spans, h1.owner)
    && Used(h1.spans) == Used(h.spans)
    && h1.obtained == h.obtained && h1.owner.Keys == h.owner.Keys
  }

  lemma AbsorbGrows(h: Heap, a: SpanPtr, b: SpanPtr)
    requires a in h.spans && b in h.spans && a != b && h.spans[a].Free() && h.spans[b].Free()
    requires Adjacent(h.spans[a], h.spans[b]) && h.spans[b].length > 0 && HeadOf(h.spans[b]) in h.lists
    ensures Grows(h, Absorbed(h, a, b))
  {
  }

  lemma GrowsTransitive(h: Heap, h1: Heap, h2: Heap)
    requires Grows(h, h1) && Grows(h1, h2)
    ensures Grows(h, h2)
  {
  }

  // ----- spans that come off a list without being carved

  /** Delete: a span in use becomes a normal free span in transit. */
  function Retired(h: Heap, a: SpanPtr): Heap
    requires a in h.spans
  {
    h.(spans := h.spans[a := h.spans[a].(location := Normal, sizeclass := 0)])
  }

  lemma RetireSound(h: Heap, a: SpanPtr, aggressive: bool)
    requires a in h.spans && h.spans[a].location == InUse && Sound(h, {}, {}, aggressive)
    ensures Sound(Retired(h, a), {a}, {}, aggressive)
    ensures Used(Retired(h, a).spans) == Used(h.spans) - {a}
  {
    hide Tiling, Mapped, Listing, Coalesced, Balanced, Listed, Used, Interval;
    Relocate(h.spans, h.owner, h.pagemap, a, Normal, 0);
    RetireListed(h.spans, a);
  }

  lemma RetireListed(spans: Spans, a: SpanPtr)
    requires a in spans && spans[a].location == InUse
    ensures var s1 := spans[a := spans[a].(location := Normal, sizeclass := 0)];
            Listed(s1, {a}) == Listed(spans, {}) && Used(s1) == Used(spans) - {a}
  {
  }

  /** ReleaseLastNormalSpan: a decommitted normal span leaves its list. */
  function Released(h: Heap, a: SpanPtr): Heap
    requires a in h.spans && HeadOf(h.spans[a]) in h.lists
  {
    var d := Unlisted(Decommitted(h, a), a);
    d.(spans := d.spans[a := d.spans[a].(location := Returned)])
  }

  lemma ReleaseSound(h: Heap, a: SpanPtr)
    requires Sound(h, {}, {}, false) && OnItsList(h, a) && NoDup(h.lists[HeadOf(h.spans[a])])
    requires h.spans[a].location == Normal
    ensures Sound(Released(h, a), {a}, SpanPages(h.spans[a]), false)
    ensures Grows(h, Released(h, a))
  {
    hide Tiling, Mapped, Listing, Coalesced, Balanced, NoDup, Interval;
    SpanFacts(h.spans, h.owner);
    ListedAt(h.spans, {}, h.lists, a);
    Relocate(h.spans, h.owner, h.pagemap, a, Returned, 0);
    assert Listed(Released(h, a).spans, {a}) == Listed(h.spans, {}) - {a};
    UnlistListing(Listed(h.spans, {}), h.lists, a);
    CoalescedSubset(Listed(h.spans, {}), a, false);
    ReleaseBooks(h, a);
  }

  lemma ReleaseBooks(h: Heap, a: SpanPtr)
    requires Layout(h.spans, h.owner, h.pagemap) && a in Listed(h.spans, {}) && h.spans[a].location == Normal
    requires Balanced(Listed(h.spans, {}), h.owner, h.obtained, h.backed, {}, h.stats)
    ensures Balanced(Listed(h.spans, {}) - {a}, h.owner, h.obtained, h.backed - SpanPages(h.spans[a]),
                     SpanPages(h.spans[a]),
                     Adjust(Commit(h.stats, -(h.spans[a].length as int)), Normal, -(h.spans[a].length as int)))
  {
    hide Tiling, Mapped, Pages, Balance, SpanPages, Interval, Adjust, Commit;
    var l0, x := Listed(h.spans, {}), SpanPages(h.spans[a]);
    UnlistPages(h.spans, h.owner, l0, a);
    SpanSize(h.spans[a]);
    assert Pages(l0 - {a}, h.owner, Returned) == Pages(l0, h.owner, Returned);
    ReleaseBalance(Pages(l0, h.owner, Normal), Pages(l0, h.owner, Returned), Pages(l0 - {a}, h.owner, Normal),
                   h.obtained, h.backed, h.stats, x);
  }

  lemma ReleaseBalance(normal: set<PageID>, returned: set<PageID>, normal1: set<PageID>, obtained: set<PageID>,
                       backed: set<PageID>, stats: Stats, x: set<PageID>)
    requires Balance(normal, returned, obtained, backed, {}, stats) && x <= normal && normal1 == normal - x
    ensures Balance(normal1, returned, obtained, backed - x, x, Adjust(Commit(stats, -(|x| as int)), Normal, -(|x| as int)))
  {
    SizeLess(normal, x);
    assert obtained - returned - {} - x == obtained - returned - x;
  }

  /** The end of MergeIntoFreeList in aggressive mode: the whole union is
      decommitted, and the parts that already were are credited back. */
  function Sunk(h: Heap, a: SpanPtr, credit: int): Heap
    requires a in h.spans
  {
    var d := Decommitted(h, a);
    d.(spans := d.spans[a := d.spans[a].(location := Returned)],
       stats := d.stats.(committedBytes := d.stats.committedBytes + credit))
  }

  lemma SinkSound(h: Heap, a: SpanPtr, away: set<PageID>)
    requires a in h.spans && h.spans[a].location == Normal && Sound(h, {a}, away, true)
    requires away <= SpanPages(h.spans[a])
    ensures Sound(Sunk(h, a, ToBytes(|away|)), {a}, SpanPages(h.spans[a]), true)
    ensures Grows(h, Sunk(h, a, ToBytes(|away|)))
    ensures Settled(h.spans, a, true) ==> Settled(Sunk(h, a, ToBytes(|away|)).spans, a, true)
  {
    hide Tiling, Mapped, Listing, Coalesced, Pages, Interval;
    SpanFacts(h.spans, h.owner);
    Relocate(h.spans, h.owner, h.pagemap, a, Returned, 0);
    assert Listed(Sunk(h, a, ToBytes(|away|)).spans, {a}) == Listed(h.spans, {a});
  }

  // ----- one side of MergeIntoFreeList

  /** After looking at the page next to `a` on one side: `b` is NULL when there
      was nothing to merge, and otherwise the neighbour that was absorbed. */
  ghost predicate SideMerged(h: Heap, a: SpanPtr, b: SpanPtr, h1: Heap) {
    if b == NULL then h1 == h
    else a in h.spans && b in h.spans && h.spans[b].length > 0 && HeadOf(h.spans[b]) in h.lists && h1 == Absorbed(h, a, b)
  }

  /** The pages of the union that are already decommitted. */
  function AwayAfter(h: Heap, b: SpanPtr, away: set<PageID>): set<PageID>
    requires b != NULL ==> b in h.spans
  {
    if b == NULL then away else away + ReturnedPages(h.spans[b])
  }

  ghost predicate SideChoice(h: Heap, a: SpanPtr, left: bool, b: SpanPtr, aggressive: bool)
    requires a in h.spans
  {
    var q: int := if left then h.spans[a].start - 1 else h.spans[a].End();
    if b == NULL then
      q in h.pagemap ==> h.pagemap[q] in h.spans && !MayMerge(aggressive, h.spans[a], h.spans[h.pagemap[q]])
    else
      q in h.pagemap && h.pagemap[q] == b && b in h.spans && MayMerge(aggressive, h.spans[a], h.spans[b])
  }

  /** No other free span is a neighbour of `a`. */
  ghost predicate Alone(spans: Spans, a: SpanPtr)
    requires a in spans
  {
    forall b | b in spans && b != a && spans[b].Free() :: !Adjacent(spans[a], spans[b])
  }

  /** In aggressive mode, nothing decommitted is absorbed exactly if the span
      stands alone. */
  lemma MergedAlone(h: Heap, a: SpanPtr, prev: SpanPtr, away: set<PageID>, h1: Heap, next: SpanPtr, away1: set<PageID>)
    requires a in h.spans && h.spans[a].Free() && Sound(h, {a}, away, true) && SideChoice(h, a, true, prev, true)
    requires a in h1.spans && h1.spans[a].Free() && Sound(h1, {a}, away1, true) && SideChoice(h1, a, false, next, true)
    requires prev == NULL ==> h1 == h
    ensures prev != NULL ==> |ReturnedPages(h.spans[prev])| > 0
    ensures next != NULL ==> |ReturnedPages(h1.spans[next])| > 0
    ensures prev == NULL && next == NULL <==> Alone(h.spans, a)
  {
    hide Listing, Coalesced, Balanced, Interval, SpanPages;
    if prev != NULL {
      NeighbourFacts(h, a, true, prev, away, true);
      AbsorbedCounted(h, a, prev, away);
    }
    if next != NULL {
      NeighbourFacts(h1, a, false, next, away1, true);
      AbsorbedCounted(h1, a, next, away1);
    }
    if prev == NULL && next == NULL {
      UnmergedSettled(h.spans, h.owner, h.pagemap, a, true);
    }
  }

  lemma AbsorbedCounted(h: Heap, a: SpanPtr, b: SpanPtr, away: set<PageID>)
    requires Sound(h, {a}, away, true) && b in h.spans && b != a && h.spans[b].Free() && h.spans[b].length > 0
    ensures h.spans[b].location == Returned && |ReturnedPages(h.spans[b])| == h.spans[b].length
  {
    hide Layout, Listing, Balanced, Interval;
    assert b in Listed(h.spans, {a});
    SpanSize(h.spans[b]);
  }

  ghost predicate SettledOn(spans: Spans, a: SpanPtr, left: bool, aggressive: bool)
    requires a in spans
  {
    if left then SettledLeft(spans, a, aggressive) else SettledRight(spans, a, aggressive)
  }

  /** What is in transit and decommitted, as `a` is being merged. */
  ghost predicate AwayRight(h: Heap, a: SpanPtr, away: set<PageID>, aggressive: bool)
    requires a in h.spans
  {
    && away <= SpanPages(h.spans[a])
    && (if aggressive then h.spans[a].location == Normal else away == ReturnedPages(h.spans[a]))
  }

  lemma NeighbourFacts(h: Heap, a: SpanPtr, left: bool, b: SpanPtr, away: set<PageID>, aggressive: bool)
    requires a in h.spans && h.spans[a].Free() && Sound(h, {a}, away, aggressive)
    requires var q: int := if left then h.spans[a].start - 1 else h.spans[a].End(); q in h.pagemap && h.pagemap[q] == b
    ensures b != NULL && b in h.spans && b != a && Adjacent(h.spans[a], h.spans[b]) && h.spans[b].length > 0 && h.spans[a].length > 0
    ensures if left then h.spans[b].End() == h.spans[a].start else h.spans[a].End() == h.spans[b].start
    ensures h.spans[b].Free() ==> OnItsList(h, b)
    ensures away <= SpanPages(h.spans[a]) ==> away !! SpanPages(h.spans[b])
  {
    hide Mapped, Listing, Coalesced, Balanced, Interval;
    NeighbourLookups(h.spans, h.owner, h.pagemap, a);
    SpansDisjoint(h.spans, h.owner, a, b);
    if h.spans[b].Free() { SoundListed(h, {a}, away, aggressive, b); }
  }

  lemma SideSound(h: Heap, a: SpanPtr, left: bool, b: SpanPtr, away: set<PageID>, aggressive: bool)
    requires a in h.spans && h.spans[a].Free() && Sound(h, {a}, away, aggressive)
    requires AwayRight(h, a, away, aggressive) && SideChoice(h, a, left, b, aggressive)
    requires forall l | l in h.lists :: NoDup(h.lists[l])
    requires b != NULL ==> OnItsList(h, b) && h.spans[b].length > 0
    ensures var h1 := if b == NULL then h else Absorbed(h, a, b);
            var away1 := AwayAfter(h, b, away);
            && a in h1.spans && h1.spans[a].Free() && Sound(h1, {a}, away1, aggressive)
            && AwayRight(h1, a, away1, aggressive) && SettledOn(h1.spans, a, left, aggressive) && Grows(h, h1)
            && |away1| == |away| + (if b == NULL then 0 else |ReturnedPages(h.spans[b])|)
            && h1.spans[a].location == h.spans[a].location && h1.stats.systemBytes == h.stats.systemBytes
            && h1.lists.Keys == h.lists.Keys
            && (!aggressive ==> Adjust(h1.stats, h1.spans[a].location, h1.spans[a].length) ==
                                Adjust(h.stats, h.spans[a].location, h.spans[a].length))
            && (if left then h1.spans[a].End() == h.spans[a].End() else h1.spans[a].start == h.spans[a].start)
  {
    hide Tiling, Mapped, Listing, Coalesced, Balanced, SettledLeft, SettledRight, Grows, NoDup, AwayRight, SpanPages,
      ReturnedPages, Interval;
    if b == NULL {
      UnmergedSettled(h.spans, h.owner, h.pagemap, a, aggressive);
      GrowsReflexive(h);
    } else {
      NeighbourFacts(h, a, left, b, away, aggressive);
      AwaySubset(h, a, away, aggressive);
      AbsorbSound(h, a, b, away, aggressive);
      AbsorbGrows(h, a, b);
      MergedSettled(h.spans, h.owner, a, b, aggressive);
      AbsorbAway(h, a, b, away, aggressive);
      if !aggressive { SideStats(h, a, b); }
    }
  }

  lemma AwaySubset(h: Heap, a: SpanPtr, away: set<PageID>, aggressive: bool)
    requires a in h.spans && AwayRight(h, a, away, aggressive)
    ensures away <= SpanPages(h.spans[a])
  {
  }

  lemma AbsorbAway(h: Heap, a: SpanPtr, b: SpanPtr, away: set<PageID>, aggressive: bool)
    requires a in h.spans && b in h.spans && a != b && AwayRight(h, a, away, aggressive)
    requires h.spans[b].Free() && Adjacent(h.spans[a], h.spans[b]) && h.spans[b].length > 0 && HeadOf(h.spans[b]) in h.lists
    requires h.spans[a].length > 0 && MayMerge(aggressive, h.spans[a], h.spans[b])
    requires away !! SpanPages(h.spans[b])
    ensures AwayRight(Absorbed(h, a, b), a, away + ReturnedPages(h.spans[b]), aggressive)
    ensures |away + ReturnedPages(h.spans[b])| == |away| + |ReturnedPages(h.spans[b])|
  {
    hide SpanPages, Interval;
    var s, t, u := h.spans[a], h.spans[b], Absorbed(h, a, b).spans[a];
    UnionPages(s, t, u);
    DisjointSize(away, ReturnedPages(t));
  }

  lemma UnionPages(s: Span, t: Span, u: Span)
    requires Adjacent(s, t) && u.start == (if t.start < s.start then t.start else s.start) && u.length == s.length + t.length
    requires s.length > 0 && t.length > 0
    ensures SpanPages(u) == SpanPages(s) + SpanPages(t)
  {
  }

  lemma DisjointSize(x: set<PageID>, y: set<PageID>)
    requires x !! y
    ensures |x + y| == |x| + |y|
  {
  }

  lemma GrowsReflexive(h: Heap)
    ensures Grows(h, h)
  {
  }

  /** The right-hand merge does not disturb the left-hand side. */
  lemma LeftStaysSettled(h: Heap, a: SpanPtr, b: SpanPtr, aggressive: bool)
    requires a in h.spans && b in h.spans && a != b && h.spans[a].End() == h.spans[b].start
    requires h.spans[b].length > 0 && HeadOf(h.spans[b]) in h.lists && h.spans[a].length > 0
    requires SettledLeft(h.spans, a, aggressive)
    ensures SettledLeft(Absorbed(h, a, b).spans, a, aggressive)
  {
  }

  /** In either mode the union carries the sum of its parts on the books. */
  lemma SideStats(h: Heap, a: SpanPtr, b: SpanPtr)
    requires a in h.spans && b in h.spans && a != b && h.spans[b].length > 0 && HeadOf(h.spans[b]) in h.lists
    requires h.spans[a].Free() && h.spans[a].location == h.spans[b].location
    ensures var h1 := Absorbed(h, a, b);
            Adjust(h1.stats, h1.spans[a].location, h1.spans[a].length) ==
            Adjust(h.stats, h.spans[a].location, h.spans[a].length)
  {
  }

  /** With every normal list empty there are no free bytes. */
  lemma NoNormalSpans(h: Heap, aggressive: bool)
    requires Sound(h, {}, {}, aggressive)
    requires forall i: nat | i <= MAX_PAGES :: h.lists[Head(Normal, i)] == []
    ensures h.stats.freeBytes == 0
  {
    var listed := Listed(h.spans, {});
    forall a | a in listed ensures listed[a].location != Normal {
      var l := HeadOf(listed[a]);
      assert At(a) in h.lists[l];
    }
    assert Pages(listed, h.owner, Normal) == {};
  }

  lemma StatsNonnegative(h: Heap, off: set<SpanPtr>, away: set<PageID>, aggressive: bool)
    requires Sound(h, off, away, aggressive)
    ensures h.stats.freeBytes >= 0 && h.stats.unmappedBytes >= 0
    ensures h.stats.unmappedBytes % 8192 == 0 && h.stats.freeBytes % 8192 == 0
    ensures away == {} ==> h.stats.committedBytes + h.stats.unmappedBytes == h.stats.systemBytes
    ensures away == {} ==> h.stats.committedBytes >= 0
    ensures h.stats.freeBytes + h.stats.unmappedBytes <= h.stats.systemBytes
    ensures h.stats.freeBytes == 0 <==> forall a | a in h.spans && a !in off :: h.spans[a].location != Normal
  {
    hide Mapped, Listing, Coalesced, Interval;
    var l := Listed(h.spans, off);
    var normal, returned := Pages(l, h.owner, Normal), Pages(l, h.owner, Returned);
    PagesOwned(l, h.owner, Normal);
    PagesOwned(l, h.owner, Returned);
    NoPages(h.spans, h.owner, off);
    assert normal !! returned;
    CardinalityUnion(normal, returned, h.obtained);
  }

  lemma NoPages(spans: Spans, owner: Owner, off: set<SpanPtr>)
    requires Tiling(spans, owner)
    ensures Pages(Listed(spans, off), owner, Normal) == {}
       <==> forall a | a in spans && a !in off :: spans[a].location != Normal
  {
    forall a | a in spans && a !in off && spans[a].location == Normal
      ensures spans[a].start in Pages(Listed(spans, off), owner, Normal)
    {
      assert spans[a].Covers(spans[a].start);
    }
  }

  lemma CardinalityUnion(x: set<PageID>, y: set<PageID>, z: set<PageID>)
    requires x !! y && x <= z && y <= z
    ensures |x| + |y| <= |z|
  {
    assert |x + y| == |x| + |y|;
    CardinalitySubset(x + y, z);
  }

  lemma CardinalitySubset(x: set<PageID>, z: set<PageID>)
    requires x <= z
    ensures |x| <= |z|
  {
    assert z == x + (z - x);
  }

  lemma NormalMember(h: Heap, i: nat, x: Node, aggressive: bool)
    requires Sound(h, {}, {}, aggressive) && i <= MAX_PAGES && x in h.lists[Head(Normal, i)]
    ensures x.At? && OnItsList(h, x.ptr) && h.spans[x.ptr].location == Normal && h.spans[x.ptr].length > 0
    ensures HeadOf(h.spans[x.ptr]) == Head(Normal, i) && !aggressive
  {
    SpanFacts(h.spans, h.owner);
    assert HeadOf(Listed(h.spans, {})[x.ptr]) == Head(Normal, i);
  }

  // ----- growing

  /** The system hands out `k` fresh pages from `p`. */
  function Granted(h: Heap, p: PageID, k: nat): Heap {
    h.(obtained := h.obtained + Interval(p, p + k), backed := h.backed + Interval(p, p + k),
       stats := h.stats.(systemBytes := h.stats.systemBytes + ToBytes(k),
                         committedBytes := h.stats.committedBytes + ToBytes(k)))
  }

  ghost predicate Unseen(obtained: set<PageID>, p: PageID, k: nat) {
    forall q | p <= q < p + k :: q !in obtained
  }

  /** Pages that were obtained but belong to no span yet. */
  ghost predicate Fresh(h: Heap, p: PageID, k: nat) {
    forall q | p <= q < p + k :: q !in h.owner && q in h.obtained
  }

  lemma GrantBalance(normal: set<PageID>, returned: set<PageID>, obtained: set<PageID>, backed: set<PageID>,
                     stats: Stats, x: set<PageID>)
    requires Balance(normal, returned, obtained, backed, {}, stats) && x !! obtained && returned <= obtained
    ensures Balance(normal, returned, obtained + x, backed + x, {},
                    stats.(systemBytes := stats.systemBytes + ToBytes(|x|),
                           committedBytes := stats.committedBytes + ToBytes(|x|)))
  {
    assert |obtained + x| == |obtained| + |x|;
  }

  lemma GrantSound(h: Heap, p: PageID, k: nat, aggressive: bool)
    requires Sound(h, {}, {}, aggressive) && Unseen(h.obtained, p, k)
    ensures Sound(Granted(h, p, k), {}, {}, aggressive)
  {
    hide Layout, Listing, Coalesced, Balance, Pages, Interval;
    PagesOwned(Listed(h.spans, {}), h.owner, Returned);
    assert Interval(p, p + k) !! h.obtained;
    GrantBalance(Pages(Listed(h.spans, {}), h.owner, Normal), Pages(Listed(h.spans, {}), h.owner, Returned),
                 h.obtained, h.backed, h.stats, Interval(p, p + k));
  }

  /** Fresh pages become a span in use, mapped at both ends. */
  function Spanned(h: Heap, p: PageID, k: nat, a: SpanPtr): Heap
    requires k > 0
  {
    h.(spans := h.spans[a := Span(p, k, InUse, 0)],
       owner := Assign(h.owner, p, p + k, a),
       pagemap := h.pagemap[p := a][p + k - 1 := a])
  }

  lemma SpanSound(h: Heap, p: PageID, k: nat, a: SpanPtr, aggressive: bool)
    requires Sound(h, {}, {}, aggressive) && k > 0 && p > 0 && a != NULL && a !in h.spans
    requires Fresh(h, p, k)
    ensures Sound(Spanned(h, p, k, a), {}, {}, aggressive)
    ensures Used(Spanned(h, p, k, a).spans) == Used(h.spans)[a := Span(p, k, InUse, 0)]
  {
    hide Tiling, Mapped, Listing, Coalesced, Balanced, Interval, Assign;
    AddLayout(h.spans, h.owner, h.pagemap, p, k, a);
    assert Listed(Spanned(h, p, k, a).spans, {}) == Listed(h.spans, {});
    AddBooks(h, p, k, a);
  }

  /** Deleting the fresh span leaves a free span that covers all its pages. */
  lemma FreshDeleted(h: Heap, p: PageID, k: nat, a: SpanPtr, h1: Heap, n: nat)
    requires n <= k && 0 < k && a !in h.spans
    requires Grows(Retired(Spanned(h, p, k, a), a), h1)
    ensures exists b :: Fits(h1.spans, b, n)
  {
    hide Interval;
    var h0 := Retired(Spanned(h, p, k, a), a);
    AssignAt(h.owner, p, p + k, a, p);
    assert p in h0.owner && h0.owner[p] == a && h0.spans[a].Free();
    assert Fits(h1.spans, h1.owner[p], n);
  }

  lemma SpannedKeys(h: Heap, p: PageID, k: nat, a: SpanPtr)
    requires k > 0
    ensures Spanned(h, p, k, a).owner.Keys == h.owner.Keys + Interval(p, p + k)
  {
    AssignKeys(h.owner, p, p + k, a);
  }

  lemma UsedFresh(spans: Spans, a: SpanPtr, s: Span)
    requires a !in spans
    ensures Used(spans)[a := s] - {a} == Used(spans)
  {
  }

  lemma AddBooks(h: Heap, p: PageID, k: nat, a: SpanPtr)
    requires Balanced(Listed(h.spans, {}), h.owner, h.obtained, h.backed, {}, h.stats) && a !in h.spans
    requires Fresh(h, p, k)
    ensures Balanced(Listed(h.spans, {}), Assign(h.owner, p, p + k, a), h.obtained, h.backed, {}, h.stats)
  {
    hide Balance, Pages, Interval, Assign;
    var o1 := Assign(h.owner, p, p + k, a);
    forall q: PageID ensures (q in o1 <==> q in h.owner || p <= q < p + k) &&
      (q in h.owner ==> o1[q] == h.owner[q]) && (q in o1 && q !in h.owner ==> o1[q] == a)
    {
      AssignAt(h.owner, p, p + k, a, q);
    }
    SameBooks(Listed(h.spans, {}), h.owner, o1, h.obtained, h.backed, h.stats);
  }

  /** The books do not depend on who owns pages that are not listed. */
  lemma SameBooks(listed: Spans, owner: Owner, owner1: Owner, obtained: set<PageID>, backed: set<PageID>, stats: Stats)
    requires Balanced(listed, owner, obtained, backed, {}, stats) && owner1.Keys <= obtained
    requires forall p | p in owner :: p in owner1
    requires forall p | p in owner && owner[p] in listed :: owner1[p] == owner[p]
    requires forall p | p in owner1 && owner1[p] in listed :: p in owner && owner[p] == owner1[p]
    ensures Balanced(listed, owner1, obtained, backed, {}, stats)
  {
    hide Balance, Interval;
    assert Pages(listed, owner1, Normal) == Pages(listed, owner, Normal);
    assert Pages(listed, owner1, Returned) == Pages(listed, owner, Returned);
  }

  // ----- splitting and registering spans in use

  function SplitOff(h: Heap, a: SpanPtr, n: nat, l: SpanPtr): Heap
    requires a in h.spans && 0 < n < h.spans[a].length
  {
    h.(spans := CutSpans(h.spans, a, n, l, InUse, InUse), owner := CutOwner(h.owner, h.spans[a], n, l),
       pagemap := CutPageMap(h.pagemap, h.spans[a], n, a, l))
  }

  lemma SplitSound(h: Heap, a: SpanPtr, n: nat, l: SpanPtr, aggressive: bool)
    requires Sound(h, {}, {}, aggressive) && a in h.spans && h.spans[a].location == InUse && h.spans[a].sizeclass == 0
    requires 0 < n < h.spans[a].length && l !in h.spans && l != NULL
    ensures Sound(SplitOff(h, a, n, l), {}, {}, aggressive)
    ensures Used(SplitOff(h, a, n, l).spans) ==
            Used(h.spans)[l := Span(h.spans[a].start + n, h.spans[a].length - n, InUse, 0)][a := h.spans[a].(length := n)]
  {
    hide Tiling, Mapped, Listing, Coalesced, Balanced, Interval;
    CutTiling(h.spans, h.owner, a, n, l, InUse, InUse);
    CutMapped(h.spans, h.owner, h.pagemap, a, n, l, InUse, InUse);
    assert Listed(SplitOff(h, a, n, l).spans, {}) == Listed(h.spans, {});
    SplitOwnerSame(h, a, n, l);
    BooksOwned(Listed(h.spans, {}), h.owner, h.obtained, h.backed, h.stats);
    SameBooks(Listed(h.spans, {}), h.owner, SplitOff(h, a, n, l).owner, h.obtained, h.backed, h.stats);
  }

  lemma SoundOwned(h: Heap, aggressive: bool)
    requires Sound(h, {}, {}, aggressive)
    ensures h.owner.Keys <= h.obtained
  {
  }

  lemma BooksOwned(listed: Spans, owner: Owner, obtained: set<PageID>, backed: set<PageID>, stats: Stats)
    requires Balanced(listed, owner, obtained, backed, {}, stats)
    ensures owner.Keys <= obtained
  {
  }

  lemma SplitOwnerSame(h: Heap, a: SpanPtr, n: nat, l: SpanPtr)
    requires Tiling(h.spans, h.owner) && a in h.spans && !h.spans[a].Free() && 0 < n < h.spans[a].length && l !in h.spans
    ensures var o1, listed := SplitOff(h, a, n, l).owner, Listed(h.spans, {});
            && o1.Keys == h.owner.Keys
            && (forall p | p in h.owner :: p in o1)
            && (forall p | p in h.owner && h.owner[p] in listed :: o1[p] == h.owner[p])
            && (forall p | p in o1 && o1[p] in listed :: h.owner[p] == o1[p])
  {
    var s := h.spans[a];
    forall p | p in h.owner && h.owner[p] != a ensures !s.Covers(p) {
    }
  }

  /** RegisterSizeClass fills in the interior entries of a span. */
  function Registered(h: Heap, a: SpanPtr, sc: nat): Heap
    requires a in h.spans
  {
    h.(spans := h.spans[a := h.spans[a].(sizeclass := sc)],
       pagemap := Assign(h.pagemap, h.spans[a].start, h.spans[a].End(), a))
  }

  lemma RegisterSound(h: Heap, a: SpanPtr, sc: nat, aggressive: bool)
    requires Sound(h, {}, {}, aggressive) && a in h.spans && h.spans[a].location == InUse
    ensures Sound(Registered(h, a, sc), {}, {}, aggressive)
    ensures Used(Registered(h, a, sc).spans) == Used(h.spans)[a := h.spans[a].(sizeclass := sc)]
  {
    hide Tiling, Mapped, Listing, Coalesced, Balanced, Assign, Interval;
    RegisterMapped(h.spans, h.owner, h.pagemap, a, sc);
    assert Listed(Registered(h, a, sc).spans, {}) == Listed(h.spans, {});
  }

  // ----- finding a span

  ghost predicate Fits(spans: Spans, a: SpanPtr, n: nat) {
    a in spans && spans[a].Free() && spans[a].length >= n
  }

  /** Shorter first, then lower in the address space. */
  predicate NoWorse(s: Span, t: Span) {
    s.length < t.length || (s.length == t.length && s.start <= t.start)
  }

  /** The best fit: a free span of least sufficient length and, among the large
      ones of that length on either list, the one with the lowest address. */
  ghost predicate BestFit(spans: Spans, a: SpanPtr, n: nat) {
    && Fits(spans, a, n)
    && forall b | Fits(spans, b, n) ::
         && spans[a].length <= spans[b].length
         && (spans[a].length >= MAX_PAGES ==> NoWorse(spans[a], spans[b]))
  }

  ghost predicate BestLarge(spans: Spans, a: SpanPtr, n: nat) {
    && Fits(spans, a, n)
    && forall b | Fits(spans, b, n) && spans[b].length >= MAX_PAGES :: NoWorse(spans[a], spans[b])
  }

  /** The best fit, or one of them, is a normal span. */
  ghost predicate NormalFirst(spans: Spans, n: nat) {
    exists a :: BestFit(spans, a, n) && spans[a].location == Normal
  }

  /** The one best fit that is taken: of small spans of the same length, the first
      one on the normal list, or else the first one on the returned list. */
  ghost predicate Chosen(h: Heap, a: SpanPtr, n: nat) {
    && BestFit(h.spans, a, n)
    && (h.spans[a].length < MAX_PAGES ==>
          var normal, returned := Head(Normal, h.spans[a].length), Head(Returned, h.spans[a].length);
          normal in h.lists && returned in h.lists &&
          if h.lists[normal] != [] then At(a) == h.lists[normal][0] else h.lists[returned] != [] && At(a) == h.lists[returned][0])
  }

  ghost predicate LargeFit(spans: Spans, a: SpanPtr, n: nat) {
    Fits(spans, a, n) && spans[a].length >= MAX_PAGES
  }

  /** The best of the large spans is on the normal list. */
  ghost predicate NormalWins(spans: Spans, n: nat) {
    exists a :: LargeFit(spans, a, n) && spans[a].location == Normal
                && forall b | LargeFit(spans, b, n) :: NoWorse(spans[a], spans[b])
  }

  /** While free extents grow, a large fit may move but not vanish. */
  lemma LargeFitStays(h: Heap, h1: Heap, a: SpanPtr, n: nat, aggressive: bool)
    requires Grows(h, h1) && Sound(h, {}, {}, aggressive) && LargeFit(h.spans, a, n)
    ensures exists b :: LargeFit(h1.spans, b, n)
  {
    var p := h.spans[a].start;
    assert h.spans[a].Covers(p);
    assert h.owner[p] == a;
    assert LargeFit(h1.spans, h1.owner[p], n);
  }

  lemma FreeCounted(h: Heap, a: SpanPtr, aggressive: bool)
    requires Sound(h, {}, {}, aggressive) && a in h.spans && h.spans[a].Free()
    ensures (if h.spans[a].location == Normal then h.stats.freeBytes else h.stats.unmappedBytes) >= ToBytes(h.spans[a].length)
  {
    hide Listing, Coalesced, Interval;
    var pages := Pages(Listed(h.spans, {}), h.owner, h.spans[a].location);
    assert SpanPages(h.spans[a]) <= pages;
    SpanSize(h.spans[a]);
    CardinalitySubset(SpanPages(h.spans[a]), pages);
  }

  /** `r` is a new span in use of exactly `n` pages, and nothing else that a
      client can see has changed. */
  ghost predicate Allocated(spans0: Spans, spans1: Spans, r: SpanPtr, n: nat) {
    && r in spans1 && r !in Used(spans0)
    && spans1[r] == Span(spans1[r].start, n, InUse, 0)
    && Used(spans1) == Used(spans0)[r := spans1[r]]
  }

  lemma ListMember(h: Heap, l: Node, x: Node, aggressive: bool)
    requires Sound(h, {}, {}, aggressive) && l in h.lists && x in h.lists[l]
    ensures x.At? && x.ptr in h.spans && h.spans[x.ptr].Free() && HeadOf(h.spans[x.ptr]) == l
  {
    assert x.ptr in Listed(h.spans, {});
  }

  lemma FreeListed(h: Heap, a: SpanPtr, aggressive: bool)
    requires Sound(h, {}, {}, aggressive) && a in h.spans && h.spans[a].Free()
    ensures HeadOf(h.spans[a]) in h.lists && At(a) in h.lists[HeadOf(h.spans[a])]
    ensures h.spans[a].length > 0
  {
    SpanFacts(h.spans, h.owner);
    assert a in Listed(h.spans, {});
  }

  /** With both lists of a bin empty, no free span has that length. */
  lemma BinEmpty(h: Heap, s: nat, aggressive: bool)
    requires Sound(h, {}, {}, aggressive) && s < MAX_PAGES
    requires Head(Normal, s) in h.lists && h.lists[Head(Normal, s)] == []
    requires Head(Returned, s) in h.lists && h.lists[Head(Returned, s)] == []
    ensures forall a | Fits(h.spans, a, s) :: Fits(h.spans, a, s + 1)
  {
    hide Sound, Interval;
    forall a | Fits(h.spans, a, s) ensures Fits(h.spans, a, s + 1) {
      FreeListed(h, a, aggressive);
    }
  }

  // ----- conservation of pages

  function UsedPages(h: Heap): set<PageID> {
    set p | p in h.owner && h.owner[p] in h.spans && h.spans[h.owner[p]].location == InUse
  }

  /** The pages in use, on normal lists and on returned lists tile all managed
      pages, and the statistics count them. */
  lemma Conservation(h: Heap, aggressive: bool)
    requires Sound(h, {}, {}, aggressive)
    ensures var listed := Listed(h.spans, {});
            var normal, returned := Pages(listed, h.owner, Normal), Pages(listed, h.owner, Returned);
            && UsedPages(h) + normal + returned == h.owner.Keys
            && UsedPages(h) !! normal !! returned
            && ToBytes(|UsedPages(h)|) + h.stats.freeBytes + h.stats.unmappedBytes == ToBytes(|h.owner.Keys|)
            && h.stats.committedBytes + h.stats.unmappedBytes == h.stats.systemBytes
            && h.stats.systemBytes == ToBytes(|h.obtained|)
            && UsedPages(h) <= h.backed && normal <= h.backed && returned !! h.backed
  {
    hide Tiling, Mapped, Listing, Coalesced, Pages, UsedPages, Interval;
    var listed := Listed(h.spans, {});
    var used, normal, returned := UsedPages(h), Pages(listed, h.owner, Normal), Pages(listed, h.owner, Returned);
    PagesTile(h);
    assert |used + normal + returned| == |used| + |normal| + |returned|;
  }

  /** Every page obtained is either managed, or was leaked. */
  ghost predicate Accounted(obtained: set<PageID>, managed: set<PageID>, leaked: set<PageID>) {
    obtained == managed + leaked && managed !! leaked
  }

  /** With the leaked pages, the three kinds tile all that was ever obtained; so
      they do so by themselves as long as the page map could always be extended. */
  lemma ObtainedTiled(h: Heap, leaked: set<PageID>, aggressive: bool)
    requires Sound(h, {}, {}, aggressive) && Accounted(h.obtained, h.owner.Keys, leaked)
    ensures var listed := Listed(h.spans, {});
            var normal, returned := Pages(listed, h.owner, Normal), Pages(listed, h.owner, Returned);
            && UsedPages(h) + normal + returned + leaked == h.obtained
            && UsedPages(h) !! normal !! returned !! leaked
            && ToBytes(|UsedPages(h)|) + h.stats.freeBytes + h.stats.unmappedBytes + ToBytes(|leaked|) == h.stats.systemBytes
            && (leaked == {} ==>
                  && UsedPages(h) + normal + returned == h.obtained
                  && ToBytes(|UsedPages(h)|) + h.stats.freeBytes + h.stats.unmappedBytes == h.stats.systemBytes)
  {
    hide Sound, Pages, UsedPages, Listed, Interval;
    Conservation(h, aggressive);
    assert |h.owner.Keys + leaked| == |h.owner.Keys| + |leaked|;
  }

  /** Neighbouring free spans differ in location; so there are none in aggressive
      mode, and none once every normal span has been released. */
  lemma MaximalCoalescing(h: Heap, aggressive: bool, a: SpanPtr, b: SpanPtr)
    requires Sound(h, {}, {}, aggressive) && a in h.spans && b in h.spans && h.spans[a].Free() && h.spans[b].Free()
    requires h.spans[a].End() == h.spans[b].start
    ensures !aggressive && h.spans[a].location != h.spans[b].location && h.stats.freeBytes > 0
  {
    hide Mapped, Listing, Interval;
    var listed := Listed(h.spans, {});
    assert a in listed && b in listed;
    var c := if h.spans[a].location == Normal then a else b;
    SpanFacts(h.spans, h.owner);
    OwnedAt(h.spans, h.owner, c, h.spans[c].start);
    assert h.spans[c].start in Pages(listed, h.owner, Normal);
  }

  lemma PagesTile(h: Heap)
    requires Tiling(h.spans, h.owner)
    ensures var listed := Listed(h.spans, {});
            var normal, returned := Pages(listed, h.owner, Normal), Pages(listed, h.owner, Returned);
            UsedPages(h) + normal + returned == h.owner.Keys && UsedPages(h) !! normal !! returned
  {
    hide WellFormed, Interval;
    var listed := Listed(h.spans, {});
    forall p | p in h.owner
      ensures h.owner[p] in h.spans && (h.owner[p] in listed <==> h.spans[h.owner[p]].location != InUse)
    {
    }
  }
}
