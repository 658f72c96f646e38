/** What the release of free pages does to the normal lists, and in which order. */
module ReleaseOrder {
  import opened Sequences
  import opened SpanLists
  import opened PageLayout
  import opened FreeSpans
  import opened HeapState

  function SpansAt(spans: Spans, l: Location): Spans {
    map a | a in spans && spans[a].location == l :: spans[a]
  }

  function HeadsAt(lists: Lists, l: Location): Lists {
    map h | h in lists && h.Head? && h.location == l :: lists[h]
  }

  /** The spans at one location, and the lists for it, are the same. */
  ghost predicate SameAt(h: Heap, h1: Heap, l: Location) {
    SpansAt(h1.spans, l) == SpansAt(h.spans, l) && HeadsAt(h1.lists, l) == HeadsAt(h.lists, l)
  }

  lemma SameAtSelf(h: Heap, l: Location)
    ensures SameAt(h, h, l)
  {
  }

  lemma SameAtTransitive(h: Heap, h1: Heap, h2: Heap, l: Location)
    requires SameAt(h, h1, l) && SameAt(h1, h2, l)
    ensures SameAt(h, h2, l)
  {
  }

  /** A merge of two spans at one location leaves the others alone. */
  lemma AbsorbedElsewhere(h: Heap, a: SpanPtr, b: SpanPtr, l: Location)
    requires a in h.spans && b in h.spans && a != b && h.spans[b].length > 0 && HeadOf(h.spans[b]) in h.lists
    requires h.spans[a].location != l && h.spans[b].location != l
    ensures SameAt(h, Absorbed(h, a, b), l)
  {
  }

  lemma RelistedElsewhere(h: Heap, a: SpanPtr, l: Location)
    requires a in h.spans && HeadOf(h.spans[a]) in h.lists && h.spans[a].location != l
    ensures SameAt(h, Relisted(h, a), l)
  {
  }

  /** The normal side of the heap after its span `a` was returned. */
  ghost predicate NormalLess(h: Heap, h1: Heap, bin: nat, a: SpanPtr) {
    && SpansAt(h1.spans, Normal) == SpansAt(h.spans, Normal) - {a}
    && Head(Normal, bin) in h.lists
    && HeadsAt(h1.lists, Normal) == HeadsAt(h.lists, Normal)[Head(Normal, bin) := Without(h.lists[Head(Normal, bin)], At(a))]
  }

  /** The last span of the list at `bin` leaves the normal side. */
  lemma LastReturned(h: Heap, h1: Heap, a: SpanPtr)
    requires a in h.spans && h.spans[a].location == Normal && HeadOf(h.spans[a]) in h.lists
    requires h1.spans == h.spans[a := h.spans[a].(location := Returned)]
    requires h1.lists == UnlistedLists(h.lists, h.spans[a], a)
    ensures NormalLess(h, h1, Bin(h.spans[a].length), a)
  {
  }

  // ----- one round over the lists

  /** The list that a round starting at `first` looks at in its step `j`. */
  function Slot(first: nat, j: nat): nat
    requires first <= MAX_PAGES && j <= MAX_PAGES + 1
  {
    if first + j <= MAX_PAGES then first + j else first + j - (MAX_PAGES + 1)
  }

  function ListAt(h: Heap, bin: nat): seq<Node> {
    if Head(Normal, bin) in h.lists then h.lists[Head(Normal, bin)] else []
  }

  function LastOf(xs: seq<Node>): seq<SpanPtr> {
    if xs == [] || !xs[|xs| - 1].At? then [] else [xs[|xs| - 1].ptr]
  }

  /** The last spans of the first `k` lists of a round, as far as there are any. */
  function Visited(h: Heap, first: nat, k: nat): seq<SpanPtr>
    requires first <= MAX_PAGES && k <= MAX_PAGES + 1
  {
    if k == 0 then [] else Visited(h, first, k - 1) + LastOf(ListAt(h, Slot(first, k - 1)))
  }

  function PagesOf(spans: Spans, xs: seq<SpanPtr>): nat {
    if xs == [] then 0
    else PagesOf(spans, xs[..|xs| - 1]) + (if xs[|xs| - 1] in spans then spans[xs[|xs| - 1]].length else 0)
  }

  lemma {:induction false} PagesOfAppend(spans: Spans, xs: seq<SpanPtr>, ys: seq<SpanPtr>)
    ensures PagesOf(spans, xs + ys) == PagesOf(spans, xs) + PagesOf(spans, ys)
  {
    if ys == [] {
      assert xs + ys == xs;
    } else {
      PagesOfAppend(spans, xs, ys[..|ys| - 1]);
      assert (xs + ys)[..|xs + ys| - 1] == xs + ys[..|ys| - 1];
    }
  }

  lemma {:induction false} PagesOfSame(spans: Spans, spans1: Spans, xs: seq<SpanPtr>)
    requires forall x | x in xs :: x in spans && x in spans1 && spans1[x].length == spans[x].length
    ensures PagesOf(spans1, xs) == PagesOf(spans, xs)
  {
    if xs != [] {
      PagesOfSame(spans, spans1, xs[..|xs| - 1]);
    }
  }

  /** What the normal side is after the spans `xs` have left it. */
  ghost predicate NormalWithout(h: Heap, h1: Heap, xs: seq<SpanPtr>) {
    && NoDup(xs) && (forall x | x in xs :: x in h.spans && h.spans[x].location == Normal)
    && SpansAt(h1.spans, Normal) == SpansAt(h.spans, Normal) - (set x | x in xs)
  }

  lemma NormalWithoutNone(h: Heap)
    ensures NormalWithout(h, h, [])
  {
    assert SpansAt(h.spans, Normal) - (set x: SpanPtr | x in []) == SpansAt(h.spans, Normal);
  }

  lemma NormalWithoutAdd(h: Heap, h1: Heap, h2: Heap, xs: seq<SpanPtr>, ys: seq<SpanPtr>)
    requires NormalWithout(h, h1, xs) && NormalWithout(h1, h2, ys)
    ensures NormalWithout(h, h2, xs + ys)
    ensures forall y | y in ys :: y in h.spans && y in h1.spans && h1.spans[y] == h.spans[y]
  {
    forall y | y in ys
      ensures y in SpansAt(h1.spans, Normal) && y in SpansAt(h.spans, Normal) && y !in xs && h1.spans[y] == h.spans[y]
    {
      assert y in SpansAt(h1.spans, Normal);
      assert SpansAt(h1.spans, Normal)[y] == h1.spans[y];
    }
    forall i, j | 0 <= i < j < |xs + ys| ensures (xs + ys)[i] != (xs + ys)[j] {
      if i < |xs| <= j { assert (xs + ys)[i] in xs && (xs + ys)[j] in ys; }
    }
    assert SpansAt(h.spans, Normal) - (set x | x in xs + ys) == SpansAt(h.spans, Normal) - (set x | x in xs) - (set x | x in ys);
  }

  /** All pages of a span that left the normal side are on returned lists now. */
  lemma PagesReturned(h: Heap, h1: Heap, xs: seq<SpanPtr>, x: SpanPtr, p: PageID, aggressive: bool)
    requires Sound(h, {}, {}, aggressive) && Sound(h1, {}, {}, aggressive) && Grows(h, h1)
    requires NormalWithout(h, h1, xs) && x in xs && h.spans[x].Covers(p)
    ensures p in h1.owner && h1.owner[p] in h1.spans && h1.spans[h1.owner[p]].location == Returned
  {
    hide Mapped, Listing, Coalesced, Balanced, Interval;
    OwnedAt(h.spans, h.owner, x, p);
    TilingAt(h1.spans, h1.owner, p);
    if h1.spans[h1.owner[p]].location == Normal { NormalPage(h, h1, xs, h1.owner[p], p); }
  }

  lemma NormalPage(h: Heap, h1: Heap, xs: seq<SpanPtr>, y: SpanPtr, p: PageID)
    requires Tiling(h.spans, h.owner) && NormalWithout(h, h1, xs)
    requires y in h1.spans && h1.spans[y].location == Normal && h1.spans[y].Covers(p)
    ensures p in h.owner && h.owner[p] == y && y !in xs
  {
    assert y in SpansAt(h1.spans, Normal) && SpansAt(h1.spans, Normal)[y] == h1.spans[y];
    assert y in SpansAt(h.spans, Normal) && y !in xs && h.spans[y] == h1.spans[y];
    OwnedAt(h.spans, h.owner, y, p);
  }

  /** While a round is on, the lists still to be looked at are as they were. */
  ghost predicate RoundAt(h: Heap, h1: Heap, first: nat, i: nat)
    requires first <= MAX_PAGES && i <= MAX_PAGES + 1
  {
    && NormalWithout(h, h1, Visited(h, first, i))
    && forall j: nat | i <= j <= MAX_PAGES :: ListAt(h1, Slot(first, j)) == ListAt(h, Slot(first, j))
  }

  lemma RoundStarts(h: Heap, first: nat)
    requires first <= MAX_PAGES
    ensures RoundAt(h, h, first, 0)
  {
    NormalWithoutNone(h);
  }

  lemma RoundSkips(h: Heap, h1: Heap, first: nat, i: nat)
    requires first <= MAX_PAGES && i <= MAX_PAGES && RoundAt(h, h1, first, i) && ListAt(h1, Slot(first, i)) == []
    ensures RoundAt(h, h1, first, i + 1) && Visited(h, first, i + 1) == Visited(h, first, i)
  {
  }

  lemma RoundTakes(h: Heap, h1: Heap, h2: Heap, first: nat, i: nat, a: SpanPtr)
    requires first <= MAX_PAGES && i <= MAX_PAGES && RoundAt(h, h1, first, i)
    requires LastOf(ListAt(h1, Slot(first, i))) == [a] && NormalLess(h1, h2, Slot(first, i), a)
    requires a in h1.spans && h1.spans[a].location == Normal
    ensures RoundAt(h, h2, first, i + 1) && Visited(h, first, i + 1) == Visited(h, first, i) + [a]
    ensures a in h.spans && h.spans[a] == h1.spans[a]
    ensures PagesOf(h.spans, Visited(h, first, i + 1)) == PagesOf(h.spans, Visited(h, first, i)) + h1.spans[a].length
  {
    hide Visited, SpansAt;
    assert Visited(h, first, i + 1) == Visited(h, first, i) + [a] by { VisitedNext(h, first, i); }
    assert SpansAt(h1.spans, Normal) - {a} == SpansAt(h1.spans, Normal) - (set x | x in [a]);
    NormalWithoutAdd(h, h1, h2, Visited(h, first, i), [a]);
    forall j: nat | i + 1 <= j <= MAX_PAGES ensures ListAt(h2, Slot(first, j)) == ListAt(h, Slot(first, j)) {
      var l := Head(Normal, Slot(first, j));
      assert Slot(first, j) != Slot(first, i);
      assert l in HeadsAt(h2.lists, Normal) <==> l in HeadsAt(h1.lists, Normal);
    }
    PagesOfAppend(h.spans, Visited(h, first, i), [a]);
    assert [a][..0] == [];
  }

  lemma VisitedNext(h: Heap, first: nat, i: nat)
    requires first <= MAX_PAGES && i <= MAX_PAGES
    ensures Visited(h, first, i + 1) == Visited(h, first, i) + LastOf(ListAt(h, Slot(first, i)))
  {
  }

  lemma NormalLessSame(h: Heap, h1: Heap, h2: Heap, bin: nat, a: SpanPtr)
    requires NormalLess(h, h1, bin, a) && SameAt(h1, h2, Normal)
    ensures NormalLess(h, h2, bin, a)
  {
  }

  lemma RoundLists(h: Heap, h1: Heap, first: nat, i: nat)
    requires first <= MAX_PAGES && i <= MAX_PAGES && RoundAt(h, h1, first, i)
    ensures ListAt(h1, Slot(first, i)) == ListAt(h, Slot(first, i))
  {
  }

  lemma NothingVisited(h: Heap, first: nat)
    requires first <= MAX_PAGES
    ensures Visited(h, first, 0) == [] && PagesOf(h.spans, []) == 0
  {
  }

  lemma NoPagesOf(spans: Spans)
    ensures PagesOf(spans, []) == 0
  {
  }

  /** A round more: the spans released in it come after those of the rounds before. */
  lemma TraceLonger(h: Heap, h1: Heap, h2: Heap, trace: seq<SpanPtr>, first: nat, steps: nat, num: nat)
    requires first <= MAX_PAGES && steps <= MAX_PAGES + 1 && NormalWithout(h, h1, trace)
    requires NormalWithout(h1, h2, Visited(h1, first, steps))
    requires PagesOf(h.spans, trace) < num
    requires trace != [] ==> PagesOf(h.spans, trace[..|trace| - 1]) < num
    requires steps > 0 ==> PagesOf(h.spans, trace) + PagesOf(h1.spans, Visited(h1, first, steps - 1)) < num
    ensures var longer := trace + Visited(h1, first, steps);
            && NormalWithout(h, h2, longer)
            && PagesOf(h.spans, longer) == PagesOf(h.spans, trace) + PagesOf(h1.spans, Visited(h1, first, steps))
            && (longer != [] ==> PagesOf(h.spans, longer[..|longer| - 1]) < num)
  {
    hide NormalWithout, PagesOf, ListAt;
    var ys := Visited(h1, first, steps);
    NormalWithoutAdd(h, h1, h2, trace, ys);
    PagesOfSame(h.spans, h1.spans, ys);
    PagesOfAppend(h.spans, trace, ys);
    if ys != [] {
      var zs := Visited(h1, first, steps - 1);
      PagesOfSame(h.spans, h1.spans, zs);
      var xs := trace + ys;
      assert xs[..|xs| - 1] == trace + ys[..|ys| - 1];
      PagesOfAppend(h.spans, trace, ys[..|ys| - 1]);
      if ys == zs {
        ShorterFewer(h.spans, zs);
      } else {
        assert ys[..|ys| - 1] == zs;
      }
    } else {
      assert trace + ys == trace;
    }
  }

  lemma ShorterFewer(spans: Spans, xs: seq<SpanPtr>)
    requires xs != []
    ensures PagesOf(spans, xs[..|xs| - 1]) <= PagesOf(spans, xs)
  {
  }

  lemma {:induction false} PagesPositive(spans: Spans, xs: seq<SpanPtr>)
    requires forall x | x in xs :: x in spans && spans[x].length > 0
    ensures PagesOf(spans, xs) >= |xs|
  {
    if xs != [] {
      PagesPositive(spans, xs[..|xs| - 1]);
    }
  }

  /** A request for one page is met by the first span. */
  lemma OneEnough(h: Heap, h1: Heap, trace: seq<SpanPtr>, aggressive: bool)
    requires Sound(h, {}, {}, aggressive) && NormalWithout(h, h1, trace)
    requires trace != [] ==> PagesOf(h.spans, trace[..|trace| - 1]) < 1
    ensures |trace| <= 1 && (trace != [] <==> PagesOf(h.spans, trace) > 0)
  {
    hide Mapped, Listing, Coalesced, Balanced;
    PagesPositive(h.spans, trace);
    if trace != [] {
      PagesPositive(h.spans, trace[..|trace| - 1]);
    }
  }

  /** No span has become normal, and those that still are have not changed. */
  ghost predicate NormalFewer(h: Heap, h1: Heap) {
    forall a | a in h1.spans && h1.spans[a].location == Normal :: a in h.spans && h.spans[a] == h1.spans[a]
  }

  lemma ReleasedFewer(h: Heap, h1: Heap, trace: seq<SpanPtr>)
    requires NormalWithout(h, h1, trace)
    ensures NormalFewer(h, h1)
  {
    forall a | a in h1.spans && h1.spans[a].location == Normal ensures a in h.spans && h.spans[a] == h1.spans[a] {
      assert a in SpansAt(h1.spans, Normal) && SpansAt(h1.spans, Normal)[a] == h1.spans[a];
      assert a in SpansAt(h.spans, Normal) && SpansAt(h.spans, Normal)[a] == h.spans[a];
    }
  }
}
