/** The free spans of a page heap: which list each is on, how many pages they
    cover, and that no two of them could still be merged. All statements are
    about the map of listed spans, so that a span in transit is left out of it. */
module FreeSpans {
  import opened Sequences
  import opened SpanLists
  import opened PageLayout

  const MAX_PAGES: nat := 128

  /** A list node: the dummy header of a free list, or a live span. */
  datatype Node = Head(location: Location, bin: nat) | At(ptr: SpanPtr)

  type Lists = map<Node, seq<Node>>

  /** Exact-size lists below MAX_PAGES, one list for everything larger. */
  function Bin(length: nat): nat {
    if length < MAX_PAGES then length else MAX_PAGES
  }

  function HeadOf(s: Span): Node { Head(s.location, Bin(s.length)) }

  /** The free spans, except those in `off`, which are between two lists. */
  function Listed(spans: Spans, off: set<SpanPtr>): Spans {
    map a | a in spans && spans[a].Free() && a !in off :: spans[a]
  }

  /** The free lists hold exactly the listed spans, each on the list of its
      location and length. */
  ghost predicate Listing(listed: Spans, lists: Lists) {
    && (forall l, i: nat | l != InUse && i <= MAX_PAGES :: Head(l, i) in lists)
    && (forall h, x: Node | h in lists && x in lists[h] :: x.At? && x.ptr in listed && HeadOf(listed[x.ptr]) == h)
    && (forall a | a in listed :: HeadOf(listed[a]) in lists && At(a) in lists[HeadOf(listed[a])])
    && (forall h | h in lists :: h.Head?)
  }

  /** MayMergeSpans, for a free `s`. */
  predicate MayMerge(aggressive: bool, s: Span, other: Span) {
    if aggressive then other.location != InUse else s.location == other.location
  }

  /** Coalescing is maximal: no two adjacent listed spans may be merged. */
  ghost predicate Coalesced(listed: Spans, aggressive: bool) {
    && (forall a, b | a in listed && b in listed && listed[a].End() == listed[b].start ::
          !MayMerge(aggressive, listed[a], listed[b]))
    && (aggressive ==> forall a | a in listed :: listed[a].location == Returned)
  }

  /** No free neighbour of `a` may be merged with it. */
  ghost predicate Settled(spans: Spans, a: SpanPtr, aggressive: bool)
    requires a in spans
  {
    SettledLeft(spans, a, aggressive) && SettledRight(spans, a, aggressive)
  }

  ghost predicate SettledLeft(spans: Spans, a: SpanPtr, aggressive: bool)
    requires a in spans
  {
    forall b | b in spans && spans[b].Free() && spans[b].End() == spans[a].start ::
      !MayMerge(aggressive, spans[a], spans[b])
  }

  ghost predicate SettledRight(spans: Spans, a: SpanPtr, aggressive: bool)
    requires a in spans
  {
    forall b | b in spans && spans[b].Free() && spans[b].start == spans[a].End() ::
      !MayMerge(aggressive, spans[a], spans[b])
  }

  /** The pages of the listed spans at one location. */
  function Pages(listed: Spans, owner: Owner, loc: Location): set<PageID> {
    set p | p in owner && owner[p] in listed && listed[owner[p]].location == loc
  }

  function Interval(lo: nat, hi: nat): (r: set<nat>)
    requires lo <= hi
    ensures forall p :: p in r <==> lo <= p < hi
    ensures |r| == hi - lo
    decreases hi - lo
  {
    if lo == hi then {} else {lo} + Interval(lo + 1, hi)
  }

  function SpanPages(s: Span): set<PageID> { Interval(s.start, s.End()) }

  // ----- page counts

  datatype Stats = Stats(systemBytes: int, freeBytes: int, unmappedBytes: int, committedBytes: int)

  /** The statistics count the pages of the two kinds of lists and of the
      system; every page obtained is committed unless it is on a returned list,
      or in a returned span that is in transit (`away`). */
  ghost predicate Balanced(listed: Spans, owner: Owner, obtained: set<PageID>, backed: set<PageID>, away: set<PageID>,
                           stats: Stats)
  {
    && owner.Keys <= obtained
    && Balance(Pages(listed, owner, Normal), Pages(listed, owner, Returned), obtained, backed, away, stats)
  }

  ghost predicate Balance(normal: set<PageID>, returned: set<PageID>, obtained: set<PageID>, backed: set<PageID>,
                          away: set<PageID>, stats: Stats)
  {
    && stats.freeBytes == ToBytes(|normal|)
    && stats.unmappedBytes == ToBytes(|returned|)
    && stats.systemBytes == ToBytes(|obtained|)
    && stats.committedBytes + stats.unmappedBytes + ToBytes(|away|) == stats.systemBytes
    && backed == obtained - returned - away
  }

  /** The statistics after `pages` more pages are listed at `location`. */
  function Adjust(stats: Stats, location: Location, pages: int): Stats {
    if location == Normal then stats.(freeBytes := stats.freeBytes + ToBytes(pages))
    else stats.(unmappedBytes := stats.unmappedBytes + ToBytes(pages))
  }

  function Commit(stats: Stats, pages: int): Stats {
    stats.(committedBytes := stats.committedBytes + ToBytes(pages))
  }

  /** Pages `x` leave their lists and are committed afterwards. */
  lemma TakeBalance(normal: set<PageID>, returned: set<PageID>, normal1: set<PageID>, returned1: set<PageID>,
                    obtained: set<PageID>, backed: set<PageID>, stats: Stats, x: set<PageID>, location: Location)
    requires Balance(normal, returned, obtained, backed, {}, stats)
    requires location == Normal ==> x <= normal && normal1 == normal - x && returned1 == returned
    requires location == Returned ==> x <= returned <= obtained && returned1 == returned - x && normal1 == normal
    ensures location == Normal ==>
              Balance(normal1, returned1, obtained, backed, {}, Adjust(stats, Normal, -(|x| as int)))
    ensures location == Returned ==>
              Balance(normal1, returned1, obtained, backed + x, {}, Commit(Adjust(stats, Returned, -(|x| as int)), |x|))
  {
  }

  // ----- taking spans off lists and putting them back

  lemma ListedAt(spans: Spans, off: set<SpanPtr>, lists: Lists, a: SpanPtr)
    requires Listing(Listed(spans, off), lists) && a in spans && spans[a].Free() && a !in off
    ensures a in Listed(spans, off) && Listed(spans, off)[a] == spans[a]
    ensures HeadOf(spans[a]) in lists && At(a) in lists[HeadOf(spans[a])]
  {
    assert a in Listed(spans, off);
  }

  lemma AllLinked(spans: Spans, off: set<SpanPtr>, lists: Lists, home: map<Node, Node>)
    requires Listing(Listed(spans, off), lists) && Homed(lists, home)
    ensures forall x | x in lists || x in home :: x.At? ==> x.ptr in spans
    ensures forall l, i: nat | l != InUse :: Head(l, Bin(i)) in lists
  {
    LinkedListed(Listed(spans, off), lists, home);
  }

  lemma LinkedListed(listed: Spans, lists: Lists, home: map<Node, Node>)
    requires Listing(listed, lists) && Homed(lists, home)
    ensures forall x | x in home :: x.At? && x.ptr in listed
  {
    forall x | x in home ensures x.At? && x.ptr in listed { assert x in lists[home[x]]; }
  }

  lemma UnlistPages(spans: Spans, owner: Owner, listed: Spans, a: SpanPtr)
    requires Tiling(spans, owner) && a in listed && a in spans && spans[a] == listed[a]
    ensures SpanPages(spans[a]) <= Pages(listed, owner, spans[a].location)
    ensures forall l: Location :: Pages(listed - {a}, owner, l) ==
              Pages(listed, owner, l) - (if l == spans[a].location then SpanPages(spans[a]) else {})
    ensures |Pages(listed - {a}, owner, spans[a].location)| == |Pages(listed, owner, spans[a].location)| - spans[a].length
  {
    var s := spans[a];
    forall p | p in SpanPages(s) ensures p in owner && owner[p] == a { assert s.Covers(p); }
    forall p | p in owner && owner[p] == a ensures p in SpanPages(s) { assert s.Covers(p); }
    forall l: Location ensures Pages(listed - {a}, owner, l) ==
               Pages(listed, owner, l) - (if l == spans[a].location then SpanPages(spans[a]) else {}) { }
  }

  lemma UnlistListing(listed: Spans, lists: Lists, a: SpanPtr)
    requires Listing(listed, lists) && a in listed && NoDup(lists[HeadOf(listed[a])])
    ensures Listing(listed - {a}, lists[HeadOf(listed[a]) := Without(lists[HeadOf(listed[a])], At(a))])
  {
    var h := HeadOf(listed[a]);
    var l1 := lists[h := Without(lists[h], At(a))];
    forall k, x: Node | k in l1 && x in l1[k] ensures x.At? && x.ptr in listed - {a} && HeadOf((listed - {a})[x.ptr]) == k {
      assert x in lists[k];
    }
  }

  lemma ListListing(listed: Spans, lists: Lists, a: SpanPtr, s: Span)
    requires Listing(listed, lists) && a !in listed && s.Free()
    ensures HeadOf(s) in lists
    ensures Listing(listed[a := s], lists[HeadOf(s) := [At(a)] + lists[HeadOf(s)]])
  {
    var h := HeadOf(s);
    assert Head(s.location, Bin(s.length)) in lists;
    var l1, n1 := lists[h := [At(a)] + lists[h]], listed[a := s];
    forall k, x: Node | k in l1 && x in l1[k] ensures x.At? && x.ptr in n1 && HeadOf(n1[x.ptr]) == k {
      if x != At(a) { assert x in lists[k]; }
    }
    forall b | b in n1 ensures HeadOf(n1[b]) in l1 && At(b) in l1[HeadOf(n1[b])] {
      if b == a { assert l1[h][0] == At(a); } else { assert At(b) in lists[HeadOf(listed[b])]; }
    }
  }

  lemma ListCoalesced(spans: Spans, a: SpanPtr, loc: Location, aggressive: bool)
    requires a in spans && Coalesced(Listed(spans, {a}), aggressive) && Settled(spans, a, aggressive)
    requires loc == if aggressive then Returned else spans[a].location
    requires spans[a].Free() && spans[a].length > 0
    ensures Coalesced(Listed(spans, {a})[a := spans[a].(location := loc)], aggressive)
  {
  }

  // ----- a whole Carve, on values

  /** The listed spans after carving `n` pages off the front of `a`. */
  function CarvedListed(listed: Spans, a: SpanPtr, n: nat, l: SpanPtr): Spans
    requires a in listed && n <= listed[a].length
  {
    var s := listed[a];
    (listed - {a})[l := Span(s.start + n, s.length - n, s.location, 0)]
  }

  lemma CarveListed(spans: Spans, a: SpanPtr, n: nat, l: SpanPtr)
    requires a in spans && l !in spans && spans[a].Free() && 0 < n < spans[a].length
    ensures Listed(CutSpans(spans, a, n, l, InUse, spans[a].location), {}) == CarvedListed(Listed(spans, {}), a, n, l)
    ensures Used(CutSpans(spans, a, n, l, InUse, spans[a].location)) ==
            Used(spans)[a := spans[a].(length := n, location := InUse)]
  {
  }

  ghost predicate Apart(listed: Spans) {
    && (forall b | b in listed :: listed[b].length > 0)
    && (forall b, c | b in listed && c in listed && b != c ::
          listed[b].End() <= listed[c].start || listed[c].End() <= listed[b].start)
  }

  /** The cut-off part needs no coalescing: nothing that follows it could have
      been merged with the whole, and what precedes it is now in use. */
  lemma CarveCoalesced(listed: Spans, a: SpanPtr, n: nat, l: SpanPtr, aggressive: bool)
    requires Coalesced(listed, aggressive) && a in listed && l !in listed && 0 < n < listed[a].length
    requires Apart(listed)
    ensures Coalesced(CarvedListed(listed, a, n, l), aggressive)
  {
  }

  lemma SizeLess(x: set<PageID>, y: set<PageID>)
    requires y <= x
    ensures |x - y| == |x| - |y|
  {
    assert x == (x - y) + y;
  }

  lemma CarvePages(spans: Spans, owner: Owner, listed: Spans, a: SpanPtr, n: nat, l: SpanPtr)
    requires Tiling(spans, owner) && listed == Listed(spans, {}) && a in listed && l !in spans && l != NULL
    requires 0 < n < spans[a].length
    ensures var s := spans[a];
            var l1, o1 := CarvedListed(listed, a, n, l), CutOwner(owner, s, n, l);
            && (forall k: Location :: Pages(l1, o1, k) ==
                  Pages(listed, owner, k) - (if k == s.location then Interval(s.start, s.start + n) else {}))
            && Interval(s.start, s.start + n) <= Pages(listed, owner, s.location)
            && |Pages(l1, o1, s.location)| == |Pages(listed, owner, s.location)| - n
  {
    hide Tiling, Pages, CarvedListed, CutOwner;
    var s := spans[a];
    var x, l1, o1 := Interval(s.start, s.start + n), CarvedListed(listed, a, n, l), CutOwner(owner, s, n, l);
    forall k: Location ensures Pages(l1, o1, k) == Pages(listed, owner, k) - (if k == s.location then x else {}) {
      forall p ensures p in Pages(l1, o1, k) <==> p in Pages(listed, owner, k) - (if k == s.location then x else {}) {
        CarvePage(spans, owner, listed, a, n, l, k, p);
      }
    }
    forall p | p in x ensures p in Pages(listed, owner, s.location) {
      CarvePage(spans, owner, listed, a, n, l, s.location, p);
    }
    SizeLess(Pages(listed, owner, s.location), x);
  }

  lemma CarvePage(spans: Spans, owner: Owner, listed: Spans, a: SpanPtr, n: nat, l: SpanPtr, k: Location, p: PageID)
    requires Tiling(spans, owner) && listed == Listed(spans, {}) && a in listed && l !in spans
    requires 0 < n < spans[a].length
    ensures var s := spans[a];
            && (p in Pages(CarvedListed(listed, a, n, l), CutOwner(owner, s, n, l), k) <==>
                  p in Pages(listed, owner, k) && !(k == s.location && s.start <= p < s.start + n))
            && (s.start <= p < s.start + n ==> p in Pages(listed, owner, s.location))
  {
    TilingAt(spans, owner, p);
    OwnedAt(spans, owner, a, p);
  }

  function UnlistedLists(lists: Lists, s: Span, a: SpanPtr): Lists
    requires HeadOf(s) in lists
  {
    lists[HeadOf(s) := Without(lists[HeadOf(s)], At(a))]
  }

  function RelistedLists(lists: Lists, s: Span, a: SpanPtr): Lists
    requires HeadOf(s) in lists
  {
    lists[HeadOf(s) := [At(a)] + lists[HeadOf(s)]]
  }

  function Remainder(s: Span, n: nat): Span
    requires n <= s.length
  {
    Span(s.start + n, s.length - n, s.location, 0)
  }

  ghost predicate Layout(spans: Spans, owner: Owner, pagemap: PageMap) {
    Tiling(spans, owner) && Mapped(spans, owner, pagemap)
  }

  lemma FreeSpanFacts(spans: Spans, owner: Owner, a: SpanPtr)
    requires Tiling(spans, owner) && a in spans && spans[a].Free()
    ensures spans[a].sizeclass == 0 && spans[a].length > 0
    ensures a in Listed(spans, {}) && Listed(spans, {})[a] == spans[a]
    ensures forall l :: l !in spans ==> l !in Listed(spans, {})
    ensures Apart(Listed(spans, {}))
  {
    var listed := Listed(spans, {});
    forall b, c | b in listed && c in listed && b != c
      ensures listed[b].End() <= listed[c].start || listed[c].End() <= listed[b].start
    {
      SpansDisjoint(spans, owner, b, c);
    }
  }

  lemma CoalescedSubset(listed: Spans, a: SpanPtr, aggressive: bool)
    requires Coalesced(listed, aggressive)
    ensures Coalesced(listed - {a}, aggressive)
  {
  }

  /** Everything about a Carve that leaves a remainder `l`. */
  lemma CarvePart(spans: Spans, owner: Owner, pagemap: PageMap, lists: Lists, a: SpanPtr, n: nat, l: SpanPtr,
                  aggressive: bool)
    requires Layout(spans, owner, pagemap) && a in spans && spans[a].Free() && l !in spans && l != NULL
    requires Listing(Listed(spans, {}), lists) && Coalesced(Listed(spans, {}), aggressive)
    requires HeadOf(spans[a]) in lists && NoDup(lists[HeadOf(spans[a])]) && 0 < n < spans[a].length
    ensures var s := spans[a];
            var rest := Remainder(s, n);
            var s1 := CutSpans(spans, a, n, l, InUse, s.location);
            && Layout(s1, CutOwner(owner, s, n, l), CutPageMap(pagemap, s, n, a, l))
            && l !in Listed(spans, {})
            && Listing(Listed(spans, {}) - {a}, UnlistedLists(lists, s, a))
            && Listed(s1, {}) == CarvedListed(Listed(spans, {}), a, n, l)
            && HeadOf(rest) in UnlistedLists(lists, s, a)
            && Listing(Listed(s1, {}), RelistedLists(UnlistedLists(lists, s, a), rest, l))
            && Coalesced(Listed(s1, {}), aggressive)
            && Used(s1) == Used(spans)[a := Span(s.start, n, InUse, 0)]
  {
    hide Tiling, Mapped, Listing, Coalesced, Listed, Used, NoDup, WellFormed;
    FreeSpanFacts(spans, owner, a);
    var s := spans[a];
    var listed := Listed(spans, {});
    CutTiling(spans, owner, a, n, l, InUse, s.location);
    CutMapped(spans, owner, pagemap, a, n, l, InUse, s.location);
    CarveListed(spans, a, n, l);
    UnlistListing(listed, lists, a);
    ListListing(listed - {a}, UnlistedLists(lists, s, a), l, Span(s.start + n, s.length - n, s.location, 0));
    CarveCoalesced(listed, a, n, l, aggressive);
  }

  /** Everything about a Carve that takes the whole span. */
  lemma CarveWhole(spans: Spans, owner: Owner, pagemap: PageMap, lists: Lists, a: SpanPtr, aggressive: bool)
    requires Layout(spans, owner, pagemap) && a in spans && spans[a].Free()
    requires Listing(Listed(spans, {}), lists) && Coalesced(Listed(spans, {}), aggressive)
    requires HeadOf(spans[a]) in lists && NoDup(lists[HeadOf(spans[a])])
    ensures var s1 := spans[a := spans[a].(location := InUse)];
            && Layout(s1, owner, pagemap)
            && Listed(s1, {}) == Listed(spans, {}) - {a}
            && Listing(Listed(s1, {}), UnlistedLists(lists, spans[a], a))
            && Coalesced(Listed(s1, {}), aggressive)
            && Used(s1) == Used(spans)[a := spans[a].(location := InUse, sizeclass := 0)]
  {
    hide Tiling, Mapped, Listing, Coalesced;
    SpanFacts(spans, owner);
    CoalescedSubset(Listed(spans, {}), a, aggressive);
    UnlistListing(Listed(spans, {}), lists, a);
    Relocate(spans, owner, pagemap, a, InUse, 0);
  }

  /** The tiling depends on where the spans lie, and on nothing else. */
  lemma SameShape(spans: Spans, spans1: Spans, owner: Owner)
    requires Tiling(spans, owner) && WellFormed(spans1) && spans1.Keys == spans.Keys
    requires forall a | a in spans :: spans1[a].start == spans[a].start && spans1[a].length == spans[a].length
    ensures Tiling(spans1, owner)
  {
    hide Tiling;
    forall p | p in owner ensures owner[p] in spans1 && spans1[owner[p]].Covers(p) {
      TilingAt(spans, owner, p);
    }
    forall c, p: PageID | c in spans1 && spans1[c].Covers(p) ensures p in owner && owner[p] == c {
      OwnedAt(spans, owner, c, p);
    }
    MakeTiling(spans1, owner);
  }

  /** Location and size class of a span do not affect the layout, unless a size
      class appears. */
  lemma Relocate(spans: Spans, owner: Owner, pagemap: PageMap, a: SpanPtr, location: Location, sizeclass: nat)
    requires Layout(spans, owner, pagemap) && a in spans && (sizeclass == 0 || sizeclass == spans[a].sizeclass)
    requires location != InUse ==> sizeclass == 0
    ensures Layout(spans[a := spans[a].(location := location, sizeclass := sizeclass)], owner, pagemap)
  {
    hide Tiling, Mapped;
    SpanFacts(spans, owner);
    var s1 := spans[a := spans[a].(location := location, sizeclass := sizeclass)];
    SameShape(spans, s1, owner);
    forall p | p in owner && owner[p] in s1 && s1[owner[p]].NeedsEntry(p) ensures p in pagemap && pagemap[p] == owner[p] {
      EntryAt(spans, owner, pagemap, p);
    }
    forall p | p in pagemap ensures p in owner {
      EntryAt(spans, owner, pagemap, p);
    }
    MakeMapped(s1, owner, pagemap);
  }

  /** Every page of an interval is sent to `a`. */
  function Assign(m: map<PageID, SpanPtr>, lo: PageID, hi: PageID, a: SpanPtr): map<PageID, SpanPtr>
    requires lo <= hi
  {
    map p | p in m.Keys + Interval(lo, hi) :: if lo <= p < hi then a else m[p]
  }

  lemma AssignKeys(m: map<PageID, SpanPtr>, lo: PageID, hi: PageID, a: SpanPtr)
    requires lo <= hi
    ensures Assign(m, lo, hi, a).Keys == m.Keys + Interval(lo, hi)
  {
  }

  lemma AssignAt(m: map<PageID, SpanPtr>, lo: PageID, hi: PageID, a: SpanPtr, q: PageID)
    requires lo <= hi
    ensures q in Assign(m, lo, hi, a) <==> q in m || lo <= q < hi
    ensures q in Assign(m, lo, hi, a) ==> Assign(m, lo, hi, a)[q] == if lo <= q < hi then a else m[q]
  {
  }

  lemma AssignNothing(m: map<PageID, SpanPtr>, lo: PageID, a: SpanPtr)
    ensures Assign(m, lo, lo, a) == m
  {
  }

  lemma AssignOneMore(m: map<PageID, SpanPtr>, lo: PageID, hi: PageID, a: SpanPtr)
    requires lo <= hi
    ensures Assign(m, lo, hi + 1, a) == Assign(m, lo, hi, a)[hi := a]
  {
    hide Assign, Interval;
    var m1, m2 := Assign(m, lo, hi + 1, a), Assign(m, lo, hi, a)[hi := a];
    forall q: PageID ensures (q in m1 <==> q in m2) && (q in m1 ==> m1[q] == m2[q]) {
      AssignAt(m, lo, hi + 1, a, q);
      AssignAt(m, lo, hi, a, q);
    }
    assert m1 == m2;
  }

  /** Filling the inside is enough when both ends are in place already. */
  lemma AssignWithEnds(m: map<PageID, SpanPtr>, lo: PageID, mid: PageID, hi: PageID, a: SpanPtr)
    requires lo < mid && (mid == hi - 1 || (mid == lo + 1 && hi <= lo + 2)) && lo < hi
    requires lo in m && m[lo] == a && hi - 1 in m && m[hi - 1] == a
    ensures Assign(m, lo + 1, mid, a) == Assign(m, lo, hi, a)
  {
    hide Assign, Interval;
    var m1, m2 := Assign(m, lo + 1, mid, a), Assign(m, lo, hi, a);
    forall q: PageID ensures (q in m1 <==> q in m2) && (q in m1 ==> m1[q] == m2[q]) {
      AssignAt(m, lo + 1, mid, a, q);
      AssignAt(m, lo, hi, a, q);
    }
    assert m1 == m2;
  }

  /** Recording every page of a span lets it have a size class. */
  lemma RegisterMapped(spans: Spans, owner: Owner, pagemap: PageMap, a: SpanPtr, sc: nat)
    requires Layout(spans, owner, pagemap) && a in spans && spans[a].location == InUse
    ensures Layout(spans[a := spans[a].(sizeclass := sc)], owner, Assign(pagemap, spans[a].start, spans[a].End(), a))
  {
    hide Tiling, Mapped, Assign, Interval;
    SpanFacts(spans, owner);
    var s := spans[a];
    var s1, m1 := spans[a := s.(sizeclass := sc)], Assign(pagemap, s.start, s.End(), a);
    SameShape(spans, s1, owner);
    forall p | p in m1 ensures p in owner {
      AssignAt(pagemap, s.start, s.End(), a, p);
      EntryAt(spans, owner, pagemap, p);
      OwnedAt(spans, owner, a, p);
    }
    forall p | p in owner && owner[p] in s1 && s1[owner[p]].NeedsEntry(p) ensures p in m1 && m1[p] == owner[p] {
      TilingAt(spans, owner, p);
      OwnedAt(spans, owner, a, p);
      AssignAt(pagemap, s.start, s.End(), a, p);
      EntryAt(spans, owner, pagemap, p);
    }
    MakeMapped(s1, owner, m1);
  }

  /** Fresh pages become a span in use, mapped at both ends. */
  lemma AddLayout(spans: Spans, owner: Owner, pagemap: PageMap, p: PageID, k: nat, a: SpanPtr)
    requires Layout(spans, owner, pagemap) && k > 0 && p > 0 && a != NULL && a !in spans
    requires forall q | p <= q < p + k :: q !in owner
    ensures Layout(spans[a := Span(p, k, InUse, 0)], Assign(owner, p, p + k, a), pagemap[p := a][p + k - 1 := a])
  {
    hide Mapped;
    AddTiling(spans, owner, p, k, a);
    AddMapped(spans, owner, pagemap, p, k, a);
  }

  lemma AddTiling(spans: Spans, owner: Owner, p: PageID, k: nat, a: SpanPtr)
    requires Tiling(spans, owner) && k > 0 && p > 0 && a != NULL && a !in spans
    requires forall q | p <= q < p + k :: q !in owner
    ensures Tiling(spans[a := Span(p, k, InUse, 0)], Assign(owner, p, p + k, a))
  {
    hide Tiling, Interval, Assign;
    SpanFacts(spans, owner);
    var s1, o1 := spans[a := Span(p, k, InUse, 0)], Assign(owner, p, p + k, a);
    forall q | q in o1 ensures o1[q] in s1 && s1[o1[q]].Covers(q) {
      AssignAt(owner, p, p + k, a, q);
      TilingAt(spans, owner, q);
    }
    forall c, q: PageID | c in s1 && s1[c].Covers(q) ensures q in o1 && o1[q] == c {
      AssignAt(owner, p, p + k, a, q);
      if c != a { OwnedAt(spans, owner, c, q); }
    }
    MakeTiling(s1, o1);
  }

  lemma AddMapped(spans: Spans, owner: Owner, pagemap: PageMap, p: PageID, k: nat, a: SpanPtr)
    requires Tiling(spans, owner) && Mapped(spans, owner, pagemap) && k > 0 && a !in spans
    requires forall q | p <= q < p + k :: q !in owner
    ensures Mapped(spans[a := Span(p, k, InUse, 0)], Assign(owner, p, p + k, a), pagemap[p := a][p + k - 1 := a])
  {
    hide Tiling, Mapped, Assign, Interval;
    var s1, o1, m1 := spans[a := Span(p, k, InUse, 0)], Assign(owner, p, p + k, a), pagemap[p := a][p + k - 1 := a];
    forall q | q in o1 && o1[q] in s1 && s1[o1[q]].NeedsEntry(q) ensures q in m1 && m1[q] == o1[q] {
      AssignAt(owner, p, p + k, a, q);
      EntryAt(spans, owner, pagemap, q);
    }
    forall q | q in m1 ensures q in o1 {
      AssignAt(owner, p, p + k, a, q);
      EntryAt(spans, owner, pagemap, q);
    }
    MakeMapped(s1, o1, m1);
  }

  /** Books after a Carve of the whole span. */
  lemma CarveWholeBooks(spans: Spans, owner: Owner, pagemap: PageMap, listed: Spans, a: SpanPtr,
                        obtained: set<PageID>, backed: set<PageID>, stats: Stats)
    requires Layout(spans, owner, pagemap) && listed == Listed(spans, {}) && a in listed
    requires Balanced(listed, owner, obtained, backed, {}, stats)
    ensures var s := spans[a];
            var stats1 := Adjust(stats, s.location, -(s.length as int));
            && (s.location == Normal ==> Balanced(listed - {a}, owner, obtained, backed, {}, stats1))
            && (s.location == Returned ==>
                  Balanced(listed - {a}, owner, obtained, backed + SpanPages(s), {}, Commit(stats1, s.length)))
  {
    hide Tiling, Mapped, Balance, Pages, SpanPages;
    UnlistPages(spans, owner, listed, a);
    PagesOwned(listed, owner, Returned);
    TakeBalance(Pages(listed, owner, Normal), Pages(listed, owner, Returned),
                Pages(listed - {a}, owner, Normal), Pages(listed - {a}, owner, Returned),
                obtained, backed, stats, SpanPages(spans[a]), spans[a].location);
    SpanSize(spans[a]);
  }

  lemma PagesOwned(listed: Spans, owner: Owner, location: Location)
    ensures Pages(listed, owner, location) <= owner.Keys
  {
  }

  lemma SpanSize(s: Span)
    ensures |SpanPages(s)| == s.length
  {
  }

  /** Books after a Carve that leaves a remainder. */
  lemma CarvePartBooks(spans: Spans, owner: Owner, pagemap: PageMap, listed: Spans, a: SpanPtr, n: nat, l: SpanPtr,
                       obtained: set<PageID>, backed: set<PageID>, stats: Stats)
    requires Layout(spans, owner, pagemap) && listed == Listed(spans, {}) && a in listed
    requires l !in spans && l != NULL && 0 < n < spans[a].length
    requires Balanced(listed, owner, obtained, backed, {}, stats)
    ensures var s := spans[a];
            var l1, o1 := CarvedListed(listed, a, n, l), CutOwner(owner, s, n, l);
            var stats1 := Adjust(stats, s.location, -(n as int));
            && (s.location == Normal ==> Balanced(l1, o1, obtained, backed, {}, stats1))
            && (s.location == Returned ==>
                  Balanced(l1, o1, obtained, backed + Interval(s.start, s.start + n), {}, Commit(stats1, n)))
  {
    hide Tiling, Mapped, Balance, Pages, Interval;
    CarvePages(spans, owner, listed, a, n, l);
    PagesOwned(listed, owner, Returned);
    var s := spans[a];
    var l1, o1, x := CarvedListed(listed, a, n, l), CutOwner(owner, s, n, l), Interval(s.start, s.start + n);
    assert o1.Keys == owner.Keys;
    TakeBalance(Pages(listed, owner, Normal), Pages(listed, owner, Returned), Pages(l1, o1, Normal),
                Pages(l1, o1, Returned), obtained, backed, stats, x, s.location);
  }

  // ----- merging, on values

  lemma JoinListed(spans: Spans, a: SpanPtr, b: SpanPtr)
    requires a in spans && b in spans && a != b && spans[a].Free() && spans[b].Free()
    ensures Listed(JoinSpans(spans, a, b), {a}) == Listed(spans, {a}) - {b}
    ensures Used(JoinSpans(spans, a, b)) == Used(spans)
  {
  }

  lemma JoinPages(spans: Spans, owner: Owner, listed: Spans, a: SpanPtr, b: SpanPtr, location: Location)
    requires Tiling(spans, owner) && listed == Listed(spans, {a}) && b in listed && a != b
    ensures Pages(listed - {b}, JoinOwner(owner, a, b), location) ==
            Pages(listed, owner, location) - (if location == spans[b].location then SpanPages(spans[b]) else {})
    ensures SpanPages(spans[b]) <= Pages(listed, owner, spans[b].location)
  {
    UnlistPages(spans, owner, listed, b);
    var o1 := JoinOwner(owner, a, b);
    forall p ensures p in Pages(listed - {b}, o1, location) <==> p in Pages(listed - {b}, owner, location) {
      if p in owner { assert o1[p] == (if owner[p] == b then a else owner[p]); }
    }
  }

  /** Pages `x` leave a normal list. */
  lemma LeaveNormal(normal: set<PageID>, returned: set<PageID>, obtained: set<PageID>, backed: set<PageID>,
                    away: set<PageID>, stats: Stats, x: set<PageID>)
    requires Balance(normal, returned, obtained, backed, away, stats) && x <= normal
    ensures Balance(normal - x, returned, obtained, backed, away, Adjust(stats, Normal, -(|x| as int)))
  {
  }

  /** Pages `x` leave a returned list, and stay decommitted. */
  lemma LeaveReturned(normal: set<PageID>, returned: set<PageID>, obtained: set<PageID>, backed: set<PageID>,
                      away: set<PageID>, stats: Stats, x: set<PageID>)
    requires Balance(normal, returned, obtained, backed, away, stats) && x <= returned && away !! x
    ensures Balance(normal, returned - x, obtained, backed, away + x, Adjust(stats, Returned, -(|x| as int)))
  {
    assert |away + x| == |away| + |x|;
    assert obtained - returned - away == obtained - (returned - x) - (away + x);
  }

  /** Pages `x` join a list; for a returned list they must be decommitted. */
  lemma EnterBalance(normal: set<PageID>, returned: set<PageID>, normal1: set<PageID>, returned1: set<PageID>,
                     obtained: set<PageID>, backed: set<PageID>, away: set<PageID>, stats: Stats,
                     x: set<PageID>, location: Location)
    requires Balance(normal, returned, obtained, backed, away, stats)
    requires location == Normal ==> x !! normal && normal1 == normal + x && returned1 == returned && away == {}
    requires location == Returned ==> x !! returned && returned1 == returned + x && normal1 == normal && away == x
    requires location != InUse
    ensures Balance(normal1, returned1, obtained, backed, {}, Adjust(stats, location, |x|))
  {
    if location == Returned { assert |returned1| == |returned| + |x|; } else { assert |normal1| == |normal| + |x|; }
  }

  /** The neighbour that was not merged could not have been. */
  lemma UnmergedSettled(spans: Spans, owner: Owner, pagemap: PageMap, a: SpanPtr, aggressive: bool)
    requires Layout(spans, owner, pagemap) && a in spans
    ensures var q := spans[a].start - 1;
            (q in pagemap ==> pagemap[q] in spans && !MayMerge(aggressive, spans[a], spans[pagemap[q]])) ==>
              SettledLeft(spans, a, aggressive)
    ensures var q := spans[a].End();
            (q in pagemap ==> pagemap[q] in spans && !MayMerge(aggressive, spans[a], spans[pagemap[q]])) ==>
              SettledRight(spans, a, aggressive)
  {
    NeighbourLookups(spans, owner, pagemap, a);
    forall b | b in spans && spans[b].End() == spans[a].start
      ensures spans[a].start - 1 in pagemap && pagemap[spans[a].start - 1] == b
    {
      EndsOwned(spans, owner, b);
    }
    forall b | b in spans && spans[b].start == spans[a].End()
      ensures spans[a].End() in pagemap && pagemap[spans[a].End()] == b
    {
      EndsOwned(spans, owner, b);
    }
  }

  /** One merge is enough on each side: what precedes (or follows) the absorbed
      span could not be merged with that one, so neither with the union. */
  lemma MergedSettled(spans: Spans, owner: Owner, a: SpanPtr, b: SpanPtr, aggressive: bool)
    requires Tiling(spans, owner) && Coalesced(Listed(spans, {a}), aggressive)
    requires a in spans && b in spans && a != b && spans[b].Free() && spans[a].Free()
    requires MayMerge(aggressive, spans[a], spans[b])
    ensures spans[b].End() == spans[a].start ==> SettledLeft(JoinSpans(spans, a, b), a, aggressive)
    ensures spans[a].End() == spans[b].start ==> SettledRight(JoinSpans(spans, a, b), a, aggressive)
  {
    var s1 := JoinSpans(spans, a, b);
    if spans[b].End() == spans[a].start {
      forall c | c in s1 && s1[c].Free() && s1[c].End() == s1[a].start ensures !MayMerge(aggressive, s1[a], s1[c]) {
        if c != a { assert c in Listed(spans, {a}) && b in Listed(spans, {a}); }
      }
    }
    if spans[a].End() == spans[b].start {
      forall c | c in s1 && s1[c].Free() && s1[c].start == s1[a].End() ensures !MayMerge(aggressive, s1[a], s1[c]) {
        if c != a { assert c in Listed(spans, {a}) && b in Listed(spans, {a}); }
      }
    }
  }
}
