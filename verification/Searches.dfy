/** What the search for free pages relies on. */
module Searches {
  import opened Sequences
  import opened SpanLists
  import opened PageLayout
  import opened FreeSpans
  import opened HeapState
  import opened ReleaseOrder

  /** No fit for `n` pages is shorter than `s`. */
  ghost predicate NoneShorter(spans: Spans, n: nat, s: nat) {
    forall b | Fits(spans, b, n) :: Fits(spans, b, s)
  }

  ghost predicate SomeFit(spans: Spans, n: nat) {
    exists b :: Fits(spans, b, n)
  }

  /** The first span of a nonempty normal list. */
  lemma NormalFound(h: Heap, s: nat, n: nat, aggressive: bool)
    requires Sound(h, {}, {}, aggressive) && 0 < n <= s < MAX_PAGES
    requires Head(Normal, s) in h.lists && Head(Returned, s) in h.lists && h.lists[Head(Normal, s)] != []
    ensures var x := h.lists[Head(Normal, s)][0];
            && x.At? && Fits(h.spans, x.ptr, n)
            && (NoneShorter(h.spans, n, s) ==> Chosen(h, x.ptr, n) && NormalFirst(h.spans, n))
    ensures h.stats.freeBytes > 0
  {
    hide Sound, Interval;
    var x := h.lists[Head(Normal, s)][0];
    ListMember(h, Head(Normal, s), x, aggressive);
    FreeCounted(h, x.ptr, aggressive);
    assert h.spans[x.ptr].length == s;
  }

  /** The first span of a returned list, if the normal one is empty. */
  lemma ReturnedFound(h: Heap, s: nat, n: nat, aggressive: bool)
    requires Sound(h, {}, {}, aggressive) && 0 < n <= s < MAX_PAGES
    requires Head(Normal, s) in h.lists && Head(Returned, s) in h.lists
    requires h.lists[Head(Normal, s)] == [] && h.lists[Head(Returned, s)] != []
    ensures var x := h.lists[Head(Returned, s)][0];
            && x.At? && Fits(h.spans, x.ptr, n) && Fits(h.spans, x.ptr, s)
            && (NoneShorter(h.spans, n, s) ==> Chosen(h, x.ptr, n) && !NormalFirst(h.spans, n))
  {
    hide Sound, Interval;
    var x := h.lists[Head(Returned, s)][0];
    ListMember(h, Head(Returned, s), x, aggressive);
    assert h.spans[x.ptr].length == s;
    forall b | Fits(h.spans, b, n) && h.spans[b].location == Normal ensures h.spans[b].length != s {
      FreeListed(h, b, aggressive);
    }
  }

  /** After a release, a list that has become empty has given its spans to longer ones. */
  lemma StillEmpty(h: Heap, h1: Heap, s: nat, aggressive: bool)
    requires Sound(h, {}, {}, aggressive) && Sound(h1, {}, {}, aggressive) && Grows(h, h1) && NormalFewer(h, h1)
    requires s < MAX_PAGES && Head(Normal, s) in h.lists && h.lists[Head(Normal, s)] == []
    requires Head(Returned, s) in h1.lists && h1.lists[Head(Returned, s)] == []
    requires SomeFit(h.spans, s)
    ensures SomeFit(h1.spans, s + 1)
  {
    hide Listing, Coalesced, Balanced, Mapped, Interval;
    var b :| Fits(h.spans, b, s);
    var p := h.spans[b].start;
    SpanFacts(h.spans, h.owner);
    OwnedAt(h.spans, h.owner, b, p);
    var c := h1.owner[p];
    assert Fits(h1.spans, c, s);
    FreeListed(h1, c, aggressive);
    if h1.spans[c].length == s && h1.spans[c].location == Normal {
      FreeListed(h, c, aggressive);
    }
    assert Fits(h1.spans, c, s + 1);
  }

  /** When only large spans can fit, the two ways to say what is best agree. */
  lemma OnlyLarge(h: Heap, n: nat, s: nat, aggressive: bool)
    requires Sound(h, {}, {}, aggressive) && 0 < n <= s && MAX_PAGES <= s
    ensures NoneShorter(h.spans, n, s) ==>
              && (NormalFirst(h.spans, n) <==> NormalWins(h.spans, n))
              && (forall r :: BestLarge(h.spans, r, n) ==> Chosen(h, r, n))
              && (forall b :: Fits(h.spans, b, n) <==> LargeFit(h.spans, b, n))
    ensures SomeFit(h.spans, s) ==> exists b :: LargeFit(h.spans, b, n)
    ensures h.stats.freeBytes == 0 ==> !NormalWins(h.spans, n)
  {
    hide Sound, Interval;
    StatsNonnegative(h, {}, {}, aggressive);
    if NoneShorter(h.spans, n, s) {
      assert forall b :: Fits(h.spans, b, n) <==> LargeFit(h.spans, b, n);
      forall a ensures BestFit(h.spans, a, n) <==> BestLarge(h.spans, a, n) { BestAgree(h.spans, a, n); }
    }
    if b :| Fits(h.spans, b, s) { assert LargeFit(h.spans, b, n); }
  }

  lemma BestAgree(spans: Spans, a: SpanPtr, n: nat)
    requires forall b :: Fits(spans, b, n) <==> LargeFit(spans, b, n)
    ensures BestFit(spans, a, n) <==> BestLarge(spans, a, n)
    ensures BestLarge(spans, a, n) <==> LargeFit(spans, a, n) && forall b | LargeFit(spans, b, n) :: NoWorse(spans[a], spans[b])
  {
  }

  lemma ChosenFits(h: Heap, r: SpanPtr, n: nat)
    requires Chosen(h, r, n)
    ensures SomeFit(h.spans, n)
  {
    assert Fits(h.spans, r, n);
  }
}
