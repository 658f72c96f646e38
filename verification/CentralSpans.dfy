/** The steps of the protocol that exchange spans with the page heap. */
module CentralSpans {
  import opened Sequences
  import opened CentralState
  import opened CentralProtocol
  import opened CentralSafety
  import opened CentralSteps

  // ----- counting

  function Elements(xs: seq<Addr>): set<Addr> { set x | x in xs }

  lemma {:induction false} SetOfSeq(xs: seq<Addr>)
    requires NoDup(xs)
    ensures |Elements(xs)| == |xs|
  {
    if xs != [] {
      var ys := xs[1..];
      assert xs[0] !in ys;
      SetOfSeq(ys);
      assert Elements(xs) == Elements(ys) + {xs[0]};
    }
  }

  /** If all pieces of a span but one are on its list, and `o` is another piece,
      then `o` is the missing one. */
  lemma LastPiece(objects: seq<Addr>, o: Addr, pieces: seq<Addr>)
    requires NoDup(objects) && NoDup(pieces) && |objects| + 1 >= |pieces|
    requires o in pieces && o !in objects && forall x | x in objects :: x in pieces
    ensures forall x | x in pieces :: x in objects || x == o
    ensures |objects| < |pieces|
  {
    var a, b := Elements(objects) + {o}, Elements(pieces);
    SetOfSeq(objects);
    SetOfSeq(pieces);
    assert o !in Elements(objects) && |a| == |objects| + 1;
    assert a <= b && b == a + (b - a);
    assert b - a == {};
    forall x | x in pieces ensures x in objects || x == o { assert x in b && x in a; }
  }

  // ----- the page map

  lemma {:induction false} RegisteredAt(pagemap: map<nat, SpanId>, start: nat, length: nat, span: SpanId, q: nat)
    ensures start <= q < start + length ==> q in Registered(pagemap, start, length, span) && Registered(pagemap, start, length, span)[q] == span
    ensures !(start <= q < start + length) ==>
              (q in Registered(pagemap, start, length, span) <==> q in pagemap) &&
              (q in pagemap ==> Registered(pagemap, start, length, span)[q] == pagemap[q])
  {
    if length > 0 {
      RegisteredAt(pagemap, start, length - 1, span, q);
    }
  }

  /** The span of a piece is the one it was cut from. */
  lemma PieceSpan(g: Config, extents: map<SpanId, Extent>, pagemap: map<nat, SpanId>, sp: SpanId, c: nat, o: Addr)
    requires Mapped(extents, pagemap) && sp in extents && c < |g| && extents[sp].length == g[c].pages
    requires o in Carved(g[c], extents[sp].start)
    ensures SpanOf(pagemap, o) == sp && o / PAGE_SIZE in pagemap
    ensures extents[sp].start <= o / PAGE_SIZE < extents[sp].start + extents[sp].length
  {
    CarvedWithin(g[c], extents[sp].start);
  }

  lemma ExtentAt(g: Config, total: int, s: State, sp: SpanId)
    requires Rest(g, total, s) && sp in s.extents
    ensures OwnerOK(g, |s.threads|, s.extents[sp])
  {
    hide OwnerOK, Placed, Pieces, Fits, OpsOK, LocksOK, Mapped, ThreadsOwn, ListsOwn, Configured, CacheSum, CreditSum;
  }

  /** The pages of an object, and its span. */
  lemma PieceAt(g: Config, total: int, s: State, o: Addr)
    requires Rest(g, total, s) && o in s.place
    ensures Piece(g, s.extents, s.pagemap, o) && Fit(s.extents, s.pagemap, s.threads, o, s.place[o])
  {
    hide Piece, Fit, Placed, OpsOK, LocksOK, Mapped, Owned, Configured, CacheSum, CreditSum;
  }

  lemma RestPlaced(g: Config, total: int, s: State)
    requires Rest(g, total, s)
    ensures Placed(s.central, s.threads, s.place) && Mapped(s.extents, s.pagemap)
  {
    hide Placed, Mapped, OpsOK, LocksOK, Owned, Configured, CacheSum, CreditSum, Pieces, Fits;
  }

  // ----- Deleting: the page heap takes a span back

  lemma DeletingStep(g: Config, total: int, s: State, t: nat)
    requires Inv(g, total, s) && t < |s.threads| && s.threads[t].Deleting?
    ensures Inv(g, total, Next(g, s, t, Go))
  {
    hide Rest, Sanes, LocksOK;
    RestSize(g, total, s);
    OpAt(g, total, s, t);
    var Deleting(l, span, todo, after) := s.threads[t];
    var op := WantReleasing(l, todo, after);
    LocksDrop(|g|, s.threads, s.locks, t, op, HeapLock);
    CreditSumUpdate(s.threads, t, op);
    assert Hand(op) == Hand(s.threads[t]) && Objs(op) == Objs(s.threads[t]) && Credit(op) == Credit(s.threads[t]);
    assert OpOK(|g|, op);
    assert LocalsOK(g, s.extents - {span}, op);
    Vanished(g, total, s, t, op, s.locks - {HeapLock}, span);
  }

  lemma Vanished(g: Config, total: int, s: State, t: nat, op: Op, locks1: map<Lock, nat>, span: SpanId)
    requires Rest(g, total, s) && t < |s.threads| && PrivateSpan(s.threads[t]) == Some(span) && PrivateSpan(op) == None
    requires OpOK(|g|, op) && LocalsOK(g, s.extents - {span}, op) && LocksOK(|g|, s.threads[t := op], locks1)
    requires Hand(op) == Hand(s.threads[t]) && CreditSum(s.threads[t := op]) == CreditSum(s.threads)
    requires Objs(op) == Objs(s.threads[t]) && Todo(op) == Todo(s.threads[t])
    requires HomeOf(op) == HomeOf(s.threads[t]) && TodoOf(op) == TodoOf(s.threads[t])
    ensures Rest(g, total, s.(extents := s.extents - {span}, locks := locks1, threads := s.threads[t := op]))
  {
    hide Objs, Todo, HomeOf, TodoOf, Hand, PrivateSpan, OpOK, LocksOK, Configured, CacheSum, CreditSum, Sanes, Rest;
    var extents1, threads1 := s.extents - {span}, s.threads[t := op];
    VanishedOwned(g, total, s, t, op, span);
    VanishedPieces(g, total, s, t, op, span);
    RestPlaced(g, total, s);
    HandSame(s.central, s.threads, s.place, t, op);
    RestVanished(g, total, s, t, op, locks1, span);
  }

  lemma RestVanished(g: Config, total: int, s: State, t: nat, op: Op, locks1: map<Lock, nat>, span: SpanId)
    requires Rest(g, total, s) && t < |s.threads| && OpOK(|g|, op) && LocksOK(|g|, s.threads[t := op], locks1)
    requires CreditSum(s.threads[t := op]) == CreditSum(s.threads)
    requires Placed(s.central, s.threads[t := op], s.place) && Owned(g, s.central, s.threads[t := op], s.extents - {span})
    requires Pieces(g, s.extents - {span}, s.pagemap, s.place) && Fits(s.extents - {span}, s.pagemap, s.threads[t := op], s.place)
    ensures Rest(g, total, s.(extents := s.extents - {span}, locks := locks1, threads := s.threads[t := op]))
  {
    hide OpOK, LocksOK, Configured, CacheSum, CreditSum, Placed, Owned, Pieces, Fits;
  }

  lemma HandSame(central: seq<Central>, threads: seq<Op>, place: map<Addr, Place>, t: nat, op: Op)
    requires Placed(central, threads, place) && t < |threads| && Hand(op) == Hand(threads[t])
    ensures Placed(central, threads[t := op], place)
  {
    hide Hand;
    var threads1 := threads[t := op];
    forall p | p != AtClient ensures PlacedAt(central, threads1, place, p) {
      assert PlacedAt(central, threads, place, p);
      assert Content(central, threads1, p) == Content(central, threads, p);
    }
  }

  lemma VanishedOwned(g: Config, total: int, s: State, t: nat, op: Op, span: SpanId)
    requires Rest(g, total, s) && t < |s.threads| && PrivateSpan(s.threads[t]) == Some(span) && PrivateSpan(op) == None
    requires LocalsOK(g, s.extents - {span}, op)
    ensures Owned(g, s.central, s.threads[t := op], s.extents - {span}) && span in s.extents && s.extents[span].owner == PrivateTo(t)
  {
    hide OpsOK, LocksOK, Configured, CacheSum, CreditSum, Placed, Mapped, Pieces, Fits, Hand, OwnerOK;
    var extents1: map<SpanId, Extent>, threads1 := s.extents - {span}, s.threads[t := op];
    assert span in s.extents && s.extents[span].owner == PrivateTo(t);
    forall u | 0 <= u < |threads1| ensures LocalsOK(g, extents1, threads1[u]) {
      if u != t {
        assert LocalsOK(g, s.extents, s.threads[u]);
        assert PrivateSpan(s.threads[u]) != Some(span);
      }
    }
  }

  lemma VanishedPieces(g: Config, total: int, s: State, t: nat, op: Op, span: SpanId)
    requires Rest(g, total, s) && t < |s.threads| && span in s.extents && s.extents[span].owner.PrivateTo?
    requires Objs(op) == Objs(s.threads[t]) && Todo(op) == Todo(s.threads[t])
    requires HomeOf(op) == HomeOf(s.threads[t]) && TodoOf(op) == TodoOf(s.threads[t])
    ensures Pieces(g, s.extents - {span}, s.pagemap, s.place) && Fits(s.extents - {span}, s.pagemap, s.threads[t := op], s.place)
  {
    hide OpsOK, LocksOK, Configured, CacheSum, CreditSum, Placed, Mapped, Owned, Objs, Todo, HomeOf, TodoOf, Carved;
    var extents1 := s.extents - {span};
    forall o | o in s.place
      ensures Piece(g, extents1, s.pagemap, o) && Fit(extents1, s.pagemap, s.threads[t := op], o, s.place[o])
    {
      PieceAt(g, total, s, o);
      assert SpanOf(s.pagemap, o) != span;
      assert ClassOf(extents1, s.pagemap, o) == ClassOf(s.extents, s.pagemap, o);
    }
  }

  // ----- Populating: the page heap gives a span

  lemma PopulatingStep(g: Config, total: int, s: State, t: nat, ch: Choice)
    requires Inv(g, total, s) && t < |s.threads| && s.threads[t].Populating? && s.threads[t].cl < |g|
    requires ch.NoPages? || (ch.Pages? && Fresh(s.extents, ch.span, ch.start, g[s.threads[t].cl].pages))
    ensures Inv(g, total, Next(g, s, t, ch))
  {
    hide Rest, Sanes, LocksOK, Fresh;
    RestSize(g, total, s);
    OpAt(g, total, s, t);
    var Populating(cl, n) := s.threads[t];
    if ch.NoPages? {
      Follows(g, s, t, WantRefill(cl, n, None));
      LetsGo(g, total, s, t, WantRefill(cl, n, None), HeapLock);
    } else {
      var op := WantRefill(cl, n, Some(ch.span));
      LocksDrop(|g|, s.threads, s.locks, t, op, HeapLock);
      CreditSumUpdate(s.threads, t, op);
      Appeared(g, total, s, t, s.locks - {HeapLock}, cl, n, ch.span, ch.start);
    }
  }

  lemma Appeared(g: Config, total: int, s: State, t: nat, locks1: map<Lock, nat>, cl: nat, n: nat, span: SpanId, start: nat)
    requires Rest(g, total, s) && t < |s.threads| && s.threads[t] == Populating(cl, n) && 0 < cl < |g| && n > 0
    requires Fresh(s.extents, span, start, g[cl].pages)
    requires LocksOK(|g|, s.threads[t := WantRefill(cl, n, Some(span))], locks1)
    requires CreditSum(s.threads[t := WantRefill(cl, n, Some(span))]) == CreditSum(s.threads)
    ensures Rest(g, total, s.(extents := s.extents[span := Extent(start, g[cl].pages, PrivateTo(t))], locks := locks1,
                              pagemap := Registered(s.pagemap, start, g[cl].pages, span),
                              threads := s.threads[t := WantRefill(cl, n, Some(span))]))
  {
    hide LocksOK, Configured, CacheSum, CreditSum, Registered, Placed, Mapped, Owned, Pieces, Fits, Fresh;
    HandSame(s.central, s.threads, s.place, t, WantRefill(cl, n, Some(span)));
    AppearedMapped(g, s.extents, s.pagemap, cl, t, span, start);
    AppearedOwned(g, total, s, t, cl, n, span, start);
    AppearedPieces(g, total, s, t, cl, n, span, start);
  }

  lemma AppearedMapped(g: Config, extents: map<SpanId, Extent>, pagemap: map<nat, SpanId>, cl: nat, t: nat, span: SpanId, start: nat)
    requires Mapped(extents, pagemap) && cl < |g| && Fresh(extents, span, start, g[cl].pages)
    ensures Mapped(extents[span := Extent(start, g[cl].pages, PrivateTo(t))], Registered(pagemap, start, g[cl].pages, span))
  {
    var extents1 := extents[span := Extent(start, g[cl].pages, PrivateTo(t))];
    var pagemap1 := Registered(pagemap, start, g[cl].pages, span);
    forall sp, q: nat | sp in extents1 && extents1[sp].start <= q < extents1[sp].start + extents1[sp].length
      ensures q in pagemap1 && pagemap1[q] == sp
    {
      RegisteredAt(pagemap, start, g[cl].pages, span, q);
    }
  }

  lemma AppearedOwned(g: Config, total: int, s: State, t: nat, cl: nat, n: nat, span: SpanId, start: nat)
    requires Rest(g, total, s) && t < |s.threads| && s.threads[t] == Populating(cl, n) && cl < |g|
    requires Fresh(s.extents, span, start, g[cl].pages)
    ensures Owned(g, s.central, s.threads[t := WantRefill(cl, n, Some(span))], s.extents[span := Extent(start, g[cl].pages, PrivateTo(t))])
  {
    hide OpsOK, LocksOK, Configured, CacheSum, CreditSum, Placed, Mapped, Pieces, Fits, Hand;
    var extents1, threads1 := s.extents[span := Extent(start, g[cl].pages, PrivateTo(t))], s.threads[t := WantRefill(cl, n, Some(span))];
    forall u | 0 <= u < |threads1| ensures LocalsOK(g, extents1, threads1[u]) {
      if u != t { assert LocalsOK(g, s.extents, s.threads[u]); }
    }
    assert forall sp | sp in s.extents :: OwnerOK(g, |s.threads|, s.extents[sp]);
  }

  lemma AppearedPieces(g: Config, total: int, s: State, t: nat, cl: nat, n: nat, span: SpanId, start: nat)
    requires Rest(g, total, s) && t < |s.threads| && s.threads[t] == Populating(cl, n) && cl < |g|
    requires Fresh(s.extents, span, start, g[cl].pages)
    ensures var extents1 := s.extents[span := Extent(start, g[cl].pages, PrivateTo(t))];
            var pagemap1 := Registered(s.pagemap, start, g[cl].pages, span);
            Pieces(g, extents1, pagemap1, s.place) && Fits(extents1, pagemap1, s.threads[t := WantRefill(cl, n, Some(span))], s.place)
  {
    hide OpsOK, LocksOK, Configured, CacheSum, CreditSum, Placed, Owned, Carved, Registered, Mapped;
    var extents1 := s.extents[span := Extent(start, g[cl].pages, PrivateTo(t))];
    var pagemap1 := Registered(s.pagemap, start, g[cl].pages, span);
    forall o | o in s.place
      ensures Piece(g, extents1, pagemap1, o) && Fit(extents1, pagemap1, s.threads[t := WantRefill(cl, n, Some(span))], o, s.place[o])
    {
      PieceAt(g, total, s, o);
      PieceRange(g, total, s, o);
      RegisteredAt(s.pagemap, start, g[cl].pages, span, o / PAGE_SIZE);
      assert SpanOf(pagemap1, o) == SpanOf(s.pagemap, o);
    }
  }

  /** An object lies in the pages of its span. */
  lemma PieceRange(g: Config, total: int, s: State, o: Addr)
    requires Rest(g, total, s) && o in s.place
    ensures var sp := SpanOf(s.pagemap, o);
            sp in s.extents && s.extents[sp].start <= o / PAGE_SIZE < s.extents[sp].start + s.extents[sp].length
  {
    hide OpsOK, LocksOK, Configured, CacheSum, CreditSum, Placed, Owned, Carved, Fits;
    PieceAt(g, total, s, o);
    var sp := SpanOf(s.pagemap, o);
    ExtentAt(g, total, s, sp);
    PieceSpan(g, s.extents, s.pagemap, sp, s.extents[sp].owner.c, o);
  }

  // ----- Releasing: the last object of a span comes back

  lemma DropStep(g: Config, total: int, s: State, t: nat)
    requires Inv(g, total, s) && t < |s.threads| && s.threads[t].Releasing? && s.threads[t].todo != []
    requires LeftOver(s, s.threads[t].l, s.threads[t].todo[0]) == 1
    ensures Inv(g, total, Next(g, s, t, Go))
  {
    hide Rest, Sanes, LocksOK, Sane, SpanOf, ClassOf, Carved, ReleasedSpan, PrivateSpan;
    RestSize(g, total, s);
    OpAt(g, total, s, t);
    TodoSpan(g, total, s, t);
    var Releasing(l, todo, after) := s.threads[t];
    var c := s.central[l];
    var sp := SpanOf(s.pagemap, todo[0]);
    var x, op := ReleasedSpan(g[l], c, sp), Dropping(l, sp, todo[1..], after);
    SaneAt(g, s.central, l);
    ReleaseSpan(g[l], c, sp);
    SanesSet(g, s.central, l, x);
    LocksDrop(|g|, s.threads, s.locks, t, op, ClassLock(l));
    CreditSumUpdate(s.threads, t, op);
    CacheSumUpdate(s.central, l, x);
    DroppedSpan(g, c, l, sp);
    DropPlaced(g, total, s, t);
    DropOwned(g, total, s, t);
    DropPieces(g, total, s, t);
    RestDropped(g, total, s, t, l, sp, x, op);
  }

  lemma DroppedSpan(g: Config, c: Central, l: nat, sp: SpanId)
    requires l < |g| && sp in c.spans
    ensures ReleasedSpan(g[l], c, sp).spans == c.spans - {sp}
    ensures ReleasedSpan(g[l], c, sp).slots == c.slots && ReleasedSpan(g[l], c, sp).cacheSize == c.cacheSize
  {
  }

  /** Who has what after a span has left its list. */
  function DropExtents(extents: map<SpanId, Extent>, sp: SpanId, t: nat): map<SpanId, Extent>
    requires sp in extents
  {
    extents[sp := extents[sp].(owner := PrivateTo(t))]
  }

  function WithoutPieces(place: map<Addr, Place>, pieces: seq<Addr>): map<Addr, Place> {
    place - (set a | a in pieces)
  }

  lemma RestDropped(g: Config, total: int, s: State, t: nat, l: nat, sp: SpanId, x: Central, op: Op)
    requires Rest(g, total, s) && t < |s.threads| && l < |g| && sp in s.extents && OpOK(|g|, op)
    requires LocksOK(|g|, s.threads[t := op], s.locks - {ClassLock(l)})
    requires CacheSum(s.central[l := x]) + CreditSum(s.threads[t := op]) <= total
    requires Placed(s.central[l := x], s.threads[t := op], WithoutPieces(s.place, Carved(g[l], s.extents[sp].start)))
    requires Owned(g, s.central[l := x], s.threads[t := op], DropExtents(s.extents, sp, t))
    requires Pieces(g, DropExtents(s.extents, sp, t), s.pagemap, WithoutPieces(s.place, Carved(g[l], s.extents[sp].start)))
    requires Fits(DropExtents(s.extents, sp, t), s.pagemap, s.threads[t := op], WithoutPieces(s.place, Carved(g[l], s.extents[sp].start)))
    ensures Rest(g, total, s.(central := s.central[l := x], locks := s.locks - {ClassLock(l)}, threads := s.threads[t := op],
                              extents := DropExtents(s.extents, sp, t),
                              place := WithoutPieces(s.place, Carved(g[l], s.extents[sp].start))))
  {
    hide OpOK, LocksOK, Configured, CacheSum, CreditSum, Placed, Owned, Pieces, Fits, WithoutPieces, Carved;
    var extents1 := DropExtents(s.extents, sp, t);
    assert Mapped(extents1, s.pagemap) by { DropMapped(s.extents, s.pagemap, sp, t); }
  }

  lemma DropMapped(extents: map<SpanId, Extent>, pagemap: map<nat, SpanId>, sp: SpanId, t: nat)
    requires Mapped(extents, pagemap) && sp in extents
    ensures Mapped(DropExtents(extents, sp, t), pagemap)
  {
  }

  /** All pieces of the span are on its list, but the one that comes back. */
  lemma AllBack(g: Config, total: int, s: State, t: nat, a: Addr)
    requires Inv(g, total, s) && t < |s.threads| && s.threads[t].Releasing? && s.threads[t].todo != []
    requires LeftOver(s, s.threads[t].l, s.threads[t].todo[0]) == 1
    requires var op := s.threads[t];
             var sp := SpanOf(s.pagemap, op.todo[0]);
             op.l < |g| && sp in s.extents && a in Carved(g[op.l], s.extents[sp].start)
    ensures var op := s.threads[t];
            var sp := SpanOf(s.pagemap, op.todo[0]);
            a in s.place && (a == op.todo[0] || s.place[a] == InSpan(op.l, sp))
  {
    hide Rest, Sanes, LocksOK, Carved, OnLists, NoDup, ClassOf, SpanOf;
    RestSize(g, total, s);
    TodoSpan(g, total, s, t);
    var l, o := s.threads[t].l, s.threads[t].todo[0];
    var sp := SpanOf(s.pagemap, o);
    var objects := s.central[l].spans[sp].objects;
    SpanContent(s.central, s.threads, l, sp);
    NoDupAt(g, total, s, InSpan(l, sp));
    forall x | x in objects ensures x in Carved(g[l], s.extents[sp].start) && x in s.place && s.place[x] == InSpan(l, sp) {
      ObjectAt(g, total, s, InSpan(l, sp), x);
      PieceOf(g, total, s, x, l);
    }
    SaneAt(g, s.central, l);
    CarvedWithin(g[l], s.extents[sp].start);
    LastPiece(objects, o, Carved(g[l], s.extents[sp].start));
  }

  lemma PieceOf(g: Config, total: int, s: State, o: Addr, l: nat)
    requires Piece(g, s.extents, s.pagemap, o) && ClassOf(s.extents, s.pagemap, o) == Some(l)
    ensures l < |g| && o in Carved(g[l], s.extents[SpanOf(s.pagemap, o)].start)
  {
    hide Carved;
  }

  lemma DropPlaced(g: Config, total: int, s: State, t: nat)
    requires Inv(g, total, s) && t < |s.threads| && s.threads[t].Releasing? && s.threads[t].todo != []
    requires LeftOver(s, s.threads[t].l, s.threads[t].todo[0]) == 1 && s.threads[t].l < |g|
    ensures var op := s.threads[t];
            var sp := SpanOf(s.pagemap, op.todo[0]);
            sp in s.extents &&
            forall x: Central | x.spans == s.central[op.l].spans - {sp} && x.slots == s.central[op.l].slots ::
              Placed(s.central[op.l := x], s.threads[t := Dropping(op.l, sp, op.todo[1..], op.after)],
                     WithoutPieces(s.place, Carved(g[op.l], s.extents[sp].start)))
  {
    hide Rest, Sanes, LocksOK, Carved, ClassOf, SpanOf, Sane;
    RestSize(g, total, s);
    TodoSpan(g, total, s, t);
    RestPlaced(g, total, s);
    var Releasing(l, todo, after) := s.threads[t];
    var sp := SpanOf(s.pagemap, todo[0]);
    var op := Dropping(l, sp, todo[1..], after);
    var pieces := Carved(g[l], s.extents[sp].start);
    forall a | a in pieces ensures a in s.place && (a == todo[0] || s.place[a] == InSpan(l, sp)) { AllBack(g, total, s, t, a); }
    forall a | a in s.place && s.place[a] == InSpan(l, sp) ensures a in pieces {
      PieceAt(g, total, s, a);
      PieceOf(g, total, s, a, l);
    }
    forall x: Central | x.spans == s.central[l].spans - {sp} && x.slots == s.central[l].slots
      ensures Placed(s.central[l := x], s.threads[t := op], WithoutPieces(s.place, pieces))
    {
      PlacedWithout(s.central, s.threads, s.place, t, l, sp, x, pieces);
    }
  }

  lemma PlacedWithout(central: seq<Central>, threads: seq<Op>, place: map<Addr, Place>, t: nat, l: nat, sp: SpanId, x: Central, pieces: seq<Addr>)
    requires Placed(central, threads, place) && t < |threads| && l < |central|
    requires threads[t].Releasing? && threads[t].todo != [] && threads[t].l == l && sp in central[l].spans
    requires x.spans == central[l].spans - {sp} && x.slots == central[l].slots
    requires forall a | a in pieces :: a in place && (a == threads[t].todo[0] || place[a] == InSpan(l, sp))
    requires forall a | a in place && place[a] == InSpan(l, sp) :: a in pieces
    requires threads[t].todo[0] in pieces && threads[t].todo[0] in place && place[threads[t].todo[0]] == InHand(t)
    ensures Placed(central[l := x], threads[t := Dropping(l, sp, threads[t].todo[1..], threads[t].after)], WithoutPieces(place, pieces))
  {
    hide Content;
    var todo, after := threads[t].todo, threads[t].after;
    var op := Dropping(l, sp, todo[1..], after);
    var central1, threads1, place1 := central[l := x], threads[t := op], WithoutPieces(place, pieces);
    assert todo == [todo[0]] + todo[1..];
    assert Hand(threads[t]) == [todo[0]] + Hand(op);
    HandContent(central, threads, t);
    HandContent(central1, threads1, t);
    SplitNoDup([todo[0]], Hand(op));
    assert Content(central1, threads1, InSpan(l, sp)) == [] by { GoneContent(central1, threads1, l, sp); }
    forall p | p != AtClient ensures PlacedAt(central1, threads1, place1, p) {
      assert PlacedAt(central, threads, place, p);
      if p != InHand(t) && p != InSpan(l, sp) {
        ContentFrame(central, threads, l, x, t, op, p);
      }
    }
  }

  lemma GoneContent(central: seq<Central>, threads: seq<Op>, l: nat, sp: SpanId)
    requires l < |central| && sp !in central[l].spans
    ensures Content(central, threads, InSpan(l, sp)) == []
  {
  }

  lemma DropOwned(g: Config, total: int, s: State, t: nat)
    requires Inv(g, total, s) && t < |s.threads| && s.threads[t].Releasing? && s.threads[t].todo != []
    requires s.threads[t].l < |g|
    ensures var op := s.threads[t];
            var sp := SpanOf(s.pagemap, op.todo[0]);
            sp in s.extents &&
            forall x: Central | x.spans == s.central[op.l].spans - {sp} ::
              Owned(g, s.central[op.l := x], s.threads[t := Dropping(op.l, sp, op.todo[1..], op.after)], DropExtents(s.extents, sp, t))
  {
    hide OpsOK, LocksOK, Configured, CacheSum, CreditSum, Placed, Mapped, Pieces, Fits, Hand, Carved, ClassOf, SpanOf, Sanes, AfterCredit,
      AfterHome, ListsOwn, ThreadsOwn, LocalsOK;
    TodoSpan(g, total, s, t);
    var Releasing(l, todo, after) := s.threads[t];
    var sp := SpanOf(s.pagemap, todo[0]);
    var op, extents1 := Dropping(l, sp, todo[1..], after), DropExtents(s.extents, sp, t);
    assert LocalsOK(g, s.extents, s.threads[t]);
    forall u | 0 <= u < |s.threads| ensures LocalsOK(g, extents1, if u == t then op else s.threads[u]) {
      assert LocalsOK(g, s.extents, s.threads[u]);
      DropLocals(g, s.extents, s.threads[u], sp, t);
      if u == t { DropLocal(g, s.extents, extents1, s.threads[t], sp); }
    }
    DropThreads(s.threads, s.extents, t, op, sp);
    forall x: Central | x.spans == s.central[l].spans - {sp} ensures ListsOwn(s.central[l := x], extents1) {
      DropLists(s.central, s.extents, l, x, sp, t);
    }
    assert forall y | y in s.extents :: OwnerOK(g, |s.threads|, s.extents[y]);
  }

  lemma DropLocals(g: Config, extents: map<SpanId, Extent>, op: Op, sp: SpanId, t: nat)
    requires sp in extents && LocalsOK(g, extents, op)
    ensures LocalsOK(g, DropExtents(extents, sp, t), op)
  {
  }

  lemma DropLocal(g: Config, extents: map<SpanId, Extent>, extents1: map<SpanId, Extent>, op: Op, sp: SpanId)
    requires op.Releasing? && op.todo != [] && LocalsOK(g, extents, op)
    ensures LocalsOK(g, extents1, Dropping(op.l, sp, op.todo[1..], op.after))
  {
  }

  lemma DropThreads(threads: seq<Op>, extents: map<SpanId, Extent>, t: nat, op: Op, sp: SpanId)
    requires ThreadsOwn(threads, extents) && t < |threads| && PrivateSpan(threads[t]) == None
    requires sp in extents && extents[sp].owner.ListedBy? && PrivateSpan(op) == Some(sp)
    ensures ThreadsOwn(threads[t := op], DropExtents(extents, sp, t))
  {
  }

  lemma DropLists(central: seq<Central>, extents: map<SpanId, Extent>, l: nat, x: Central, sp: SpanId, t: nat)
    requires ListsOwn(central, extents) && l < |central| && x.spans == central[l].spans - {sp}
    requires sp in extents && extents[sp].owner == ListedBy(l)
    ensures ListsOwn(central[l := x], DropExtents(extents, sp, t))
  {
  }

  lemma DropPieces(g: Config, total: int, s: State, t: nat)
    requires Inv(g, total, s) && t < |s.threads| && s.threads[t].Releasing? && s.threads[t].todo != []
    requires s.threads[t].l < |g|
    ensures var op := s.threads[t];
            var sp := SpanOf(s.pagemap, op.todo[0]);
            sp in s.extents &&
            var place1 := WithoutPieces(s.place, Carved(g[op.l], s.extents[sp].start));
            && Pieces(g, DropExtents(s.extents, sp, t), s.pagemap, place1)
            && Fits(DropExtents(s.extents, sp, t), s.pagemap, s.threads[t := Dropping(op.l, sp, op.todo[1..], op.after)], place1)
  {
    hide Rest, Sanes, LocksOK, Carved, SpanOf;
    RestSize(g, total, s);
    TodoSpan(g, total, s, t);
    RestPlaced(g, total, s);
    var Releasing(l, todo, after) := s.threads[t];
    var sp := SpanOf(s.pagemap, todo[0]);
    var extents1, op := DropExtents(s.extents, sp, t), Dropping(l, sp, todo[1..], after);
    var pieces := Carved(g[l], s.extents[sp].start);
    var place1 := WithoutPieces(s.place, pieces);
    forall o | o in place1
      ensures Piece(g, extents1, s.pagemap, o) && Fit(extents1, s.pagemap, s.threads[t := op], o, place1[o])
    {
      PieceAt(g, total, s, o);
      assert SpanOf(s.pagemap, o) == sp ==> o in pieces;
    }
    forall y, o | y in extents1 && extents1[y].owner.ListedBy? && extents1[y].owner.c < |g| &&
                  o in Carved(g[extents1[y].owner.c], extents1[y].start)
      ensures o in place1
    {
      PiecesAt(g, total, s, y, o);
      ExtentAt(g, total, s, y);
      ExtentAt(g, total, s, sp);
      PieceSpan(g, s.extents, s.pagemap, y, extents1[y].owner.c, o);
      if o in pieces { PieceSpan(g, s.extents, s.pagemap, sp, l, o); }
    }
  }

  lemma PiecesAt(g: Config, total: int, s: State, sp: SpanId, o: Addr)
    requires Rest(g, total, s) && sp in s.extents && s.extents[sp].owner.ListedBy? && s.extents[sp].owner.c < |g|
    requires o in Carved(g[s.extents[sp].owner.c], s.extents[sp].start)
    ensures o in s.place
  {
    hide Placed, OpsOK, LocksOK, Mapped, Owned, Configured, CacheSum, CreditSum, Fits, Carved, Piece;
  }

  // ----- Refilling: the span joins its list

  /** The state between the entry of the span and the fetch that follows it. */
  function Entered(g: Config, s: State, t: nat, cl: nat, n: nat, sp: SpanId): State
    requires t < |s.threads| && cl < |g| == |s.central| && sp in s.extents
  {
    var x := s.extents[sp];
    s.(central := s.central[cl := WithSpan(g[cl], s.central[cl], sp, x.start)],
       threads := s.threads[t := Refilling(cl, n, None)],
       extents := s.extents[sp := x.(owner := ListedBy(cl))],
       place := WithPieces(s.place, Carved(g[cl], x.start), InSpan(cl, sp)))
  }

  function WithPieces(place: map<Addr, Place>, pieces: seq<Addr>, p: Place): map<Addr, Place> {
    place + map o | o in pieces :: p
  }

  lemma RefillingStep(g: Config, total: int, s: State, t: nat)
    requires Inv(g, total, s) && t < |s.threads| && s.threads[t].Refilling?
    ensures Inv(g, total, Next(g, s, t, Go))
  {
    hide Rest, Sanes, LocksOK, Sane, Carved;
    RestSize(g, total, s);
    OpAt(g, total, s, t);
    var Refilling(cl, n, pages) := s.threads[t];
    var c := s.central[cl];
    SaneAt(g, s.central, cl);
    if pages.Some? {
      RefillSpanStep(g, total, s, t);
    } else if Grab(c, n) == [] {
      HandedStep(g, total, s, t, cl, []);
    } else {
      Fetch(g[cl], c, n);
      SanesSet(g, s.central, cl, Fetched(c, n));
      TakenStep(g, total, s, t, cl, n, []);
    }
  }

  lemma RefillSpanStep(g: Config, total: int, s: State, t: nat)
    requires Inv(g, total, s) && t < |s.threads| && s.threads[t].Refilling? && s.threads[t].pages.Some?
    ensures Inv(g, total, Next(g, s, t, Go))
  {
    hide Rest, Sanes, LocksOK, Sane, Carved, Moved, Content, CacheSum, CreditSum;
    RestSize(g, total, s);
    OpAt(g, total, s, t);
    var Refilling(cl, n, pages) := s.threads[t];
    var sp := pages.value;
    PrivateAt(g, total, s, t, sp);
    var s1 := Entered(g, s, t, cl, n, sp);
    EnteredRest(g, total, s, t);
    SaneAt(g, s.central, cl);
    ListsOwnAt(g, total, s, cl, sp);
    Populated(g[cl], s.central[cl], sp, s.extents[sp].start, n);
    TakenStep(g, total, s1, t, cl, n, []);
    SanesSet(g, s.central, cl, Fetched(s1.central[cl], n));
    assert s1.central[cl := Fetched(s1.central[cl], n)] == s.central[cl := Fetched(s1.central[cl], n)];
    SameTaken(g, s, t, cl, n, sp);
  }

  /** It makes no difference that the thread's own entry was renamed on the way. */
  lemma SameTaken(g: Config, s: State, t: nat, cl: nat, n: nat, sp: SpanId)
    requires t < |s.threads| && cl < |g| == |s.central| && sp in s.extents && s.threads[t] == Refilling(cl, n, Some(sp))
    ensures Taken(Entered(g, s, t, cl, n, sp), t, cl, n, []) == NextRefilling(g, s, t)
  {
    hide Moved, Carved, Grab, Fetched;
    var op := Fetching(cl, n, Grab(WithSpan(g[cl], s.central[cl], sp, s.extents[sp].start), n) + []);
    assert s.threads[t := Refilling(cl, n, None)][t := op] == s.threads[t := op];
  }

  lemma PrivateAt(g: Config, total: int, s: State, t: nat, sp: SpanId)
    requires Rest(g, total, s) && t < |s.threads|
    ensures PrivateSpan(s.threads[t]) == Some(sp) <==> sp in s.extents && s.extents[sp].owner == PrivateTo(t)
  {
    hide Placed, Pieces, Fits, OpsOK, LocksOK, Mapped, ListsOwn, Configured, CacheSum, CreditSum;
  }

  lemma EnteredRest(g: Config, total: int, s: State, t: nat)
    requires Inv(g, total, s) && t < |s.threads| && s.threads[t].Refilling? && s.threads[t].pages.Some? && s.threads[t].cl < |g|
    requires s.threads[t].pages.value in s.extents
    ensures Rest(g, total, Entered(g, s, t, s.threads[t].cl, s.threads[t].n, s.threads[t].pages.value))
  {
    hide Rest, Sanes, LocksOK, Carved, Owned, Placed, Pieces, Fits, CacheSum, CreditSum, Mapped, WithPieces;
    RestSize(g, total, s);
    OpAt(g, total, s, t);
    var Refilling(cl, n, pages) := s.threads[t];
    var sp := pages.value;
    var x := WithSpan(g[cl], s.central[cl], sp, s.extents[sp].start);
    LocksSame(|g|, s.threads, s.locks, t, Refilling(cl, n, None));
    CreditSumUpdate(s.threads, t, Refilling(cl, n, None));
    CacheSumUpdate(s.central, cl, x);
    PrivateAt(g, total, s, t, sp);
    RestPlaced(g, total, s);
    EnteredMapped(s.extents, s.pagemap, sp, cl);
    EnteredOwned(g, total, s, t);
    EnteredNew(g, total, s, t);
    EnteredPlaced(g, total, s, t);
    EnteredPieces(g, total, s, t);
    RestEntered(g, total, s, t);
  }

  lemma RestEntered(g: Config, total: int, s: State, t: nat)
    requires Rest(g, total, s) && t < |s.threads| && s.threads[t].Refilling? && s.threads[t].pages.Some? && s.threads[t].cl < |g|
    requires s.threads[t].pages.value in s.extents
    requires var s1 := Entered(g, s, t, s.threads[t].cl, s.threads[t].n, s.threads[t].pages.value);
             && LocksOK(|g|, s1.threads, s.locks) && CacheSum(s1.central) + CreditSum(s1.threads) <= total
             && Placed(s1.central, s1.threads, s1.place) && Mapped(s1.extents, s1.pagemap)
             && Owned(g, s1.central, s1.threads, s1.extents) && Pieces(g, s1.extents, s1.pagemap, s1.place)
             && Fits(s1.extents, s1.pagemap, s1.threads, s1.place)
    ensures Rest(g, total, Entered(g, s, t, s.threads[t].cl, s.threads[t].n, s.threads[t].pages.value))
  {
    hide LocksOK, Carved, Owned, Placed, Pieces, Fits, CacheSum, CreditSum, Mapped, WithPieces, Configured, WithSpan;
  }

  lemma EnteredMapped(extents: map<SpanId, Extent>, pagemap: map<nat, SpanId>, sp: SpanId, cl: nat)
    requires Mapped(extents, pagemap) && sp in extents
    ensures Mapped(extents[sp := extents[sp].(owner := ListedBy(cl))], pagemap)
  {
  }

  lemma EnteredOwned(g: Config, total: int, s: State, t: nat)
    requires Rest(g, total, s) && t < |s.threads| && s.threads[t].Refilling? && s.threads[t].pages.Some? && s.threads[t].cl < |g|
    requires s.threads[t].pages.value in s.extents
    ensures var s1 := Entered(g, s, t, s.threads[t].cl, s.threads[t].n, s.threads[t].pages.value);
            Owned(g, s1.central, s1.threads, s1.extents)
  {
    hide OpsOK, LocksOK, Configured, CacheSum, CreditSum, Placed, Mapped, Pieces, Fits, Hand, Carved, WithPieces, ListsOwn, ThreadsOwn;
    var cl, sp := s.threads[t].cl, s.threads[t].pages.value;
    var s1 := Entered(g, s, t, cl, s.threads[t].n, sp);
    PrivateAt(g, total, s, t, sp);
    assert LocalsOK(g, s.extents, s.threads[t]);
    ListGains(s.central, s.extents, cl, sp, s1.central[cl]);
    ThreadLoses(s.threads, s.extents, t, sp, Refilling(cl, s.threads[t].n, None), cl);
    forall u | 0 <= u < |s1.threads| ensures LocalsOK(g, s1.extents, s1.threads[u]) {
      if u != t { assert LocalsOK(g, s.extents, s.threads[u]); }
    }
    assert forall y | y in s.extents :: OwnerOK(g, |s.threads|, s.extents[y]);
  }

  lemma ListGains(central: seq<Central>, extents: map<SpanId, Extent>, cl: nat, sp: SpanId, x: Central)
    requires ListsOwn(central, extents) && sp in extents && extents[sp].owner.PrivateTo? && cl < |central|
    requires x.spans.Keys == central[cl].spans.Keys + {sp}
    ensures ListsOwn(central[cl := x], extents[sp := extents[sp].(owner := ListedBy(cl))])
  {
    var central1, extents1 := central[cl := x], extents[sp := extents[sp].(owner := ListedBy(cl))];
    forall c, y | 0 <= c < |central1| ensures y in central1[c].spans <==> y in extents1 && extents1[y].owner == ListedBy(c) {
      assert y in central1[c].spans <==> y in central1[c].spans.Keys;
    }
  }

  lemma ThreadLoses(threads: seq<Op>, extents: map<SpanId, Extent>, t: nat, sp: SpanId, op: Op, cl: nat)
    requires ThreadsOwn(threads, extents) && t < |threads| && sp in extents && extents[sp].owner == PrivateTo(t)
    requires PrivateSpan(op) == None
    ensures ThreadsOwn(threads[t := op], extents[sp := extents[sp].(owner := ListedBy(cl))])
  {
    hide PrivateSpan;
    assert PrivateSpan(threads[t]) == Some(sp);
  }

  /** The pieces of the new span were nowhere before. */
  lemma EnteredNew(g: Config, total: int, s: State, t: nat)
    requires Rest(g, total, s) && t < |s.threads| && s.threads[t].Refilling? && s.threads[t].pages.Some? && s.threads[t].cl < |g|
    requires s.threads[t].pages.value in s.extents
    ensures var sp := s.threads[t].pages.value;
            forall o | o in Carved(g[s.threads[t].cl], s.extents[sp].start) :: o !in s.place && SpanOf(s.pagemap, o) == sp && o / PAGE_SIZE in s.pagemap
    ensures s.extents[s.threads[t].pages.value].owner == PrivateTo(t)
    ensures forall o | o in s.place :: SpanOf(s.pagemap, o) != s.threads[t].pages.value
  {
    hide Rest, Carved;
    var cl, sp := s.threads[t].cl, s.threads[t].pages.value;
    PrivateAt(g, total, s, t, sp);
    OpAt(g, total, s, t);
    RestPlaced(g, total, s);
    forall o | o in s.place ensures SpanOf(s.pagemap, o) != sp { PieceAt(g, total, s, o); }
    forall o | o in Carved(g[cl], s.extents[sp].start)
      ensures o !in s.place && SpanOf(s.pagemap, o) == sp && o / PAGE_SIZE in s.pagemap
    {
      PieceSpan(g, s.extents, s.pagemap, sp, cl, o);
    }
  }

  lemma EnteredPlaced(g: Config, total: int, s: State, t: nat)
    requires Rest(g, total, s) && t < |s.threads| && s.threads[t].Refilling? && s.threads[t].pages.Some? && s.threads[t].cl < |g|
    requires s.threads[t].pages.value in s.extents
    ensures var s1 := Entered(g, s, t, s.threads[t].cl, s.threads[t].n, s.threads[t].pages.value);
            Placed(s1.central, s1.threads, s1.place)
  {
    hide Rest, Carved, Content;
    RestSize(g, total, s);
    var cl, sp := s.threads[t].cl, s.threads[t].pages.value;
    var s1 := Entered(g, s, t, cl, s.threads[t].n, sp);
    var central, threads, place := s1.central, s1.threads, s1.place;
    RestPlaced(g, total, s);
    EnteredNew(g, total, s, t);
    CarvedWithin(g[cl], s.extents[sp].start);
    SpanContent(central, threads, cl, sp);
    HandContent(central, threads, t);
    HandContent(s.central, s.threads, t);
    forall p | p != AtClient ensures PlacedAt(central, threads, place, p) {
      assert PlacedAt(s.central, s.threads, s.place, p);
      if p == InSpan(cl, sp) {
        NoneOfSpan(g, total, s, cl, sp);
      } else if p != InHand(t) {
        ContentFrame(s.central, s.threads, cl, central[cl], t, threads[t], p);
      }
    }
  }

  lemma NoneOfSpan(g: Config, total: int, s: State, c: nat, sp: SpanId)
    requires Rest(g, total, s) && c < |g| && sp in s.extents && s.extents[sp].owner.PrivateTo?
    ensures forall o | o in s.place :: s.place[o] != InSpan(c, sp)
  {
    hide Rest, Piece;
    forall o | o in s.place ensures s.place[o] != InSpan(c, sp) {
      PieceAt(g, total, s, o);
    }
  }

  lemma EnteredPieces(g: Config, total: int, s: State, t: nat)
    requires Rest(g, total, s) && t < |s.threads| && s.threads[t].Refilling? && s.threads[t].pages.Some? && s.threads[t].cl < |g|
    requires s.threads[t].pages.value in s.extents
    ensures var s1 := Entered(g, s, t, s.threads[t].cl, s.threads[t].n, s.threads[t].pages.value);
            Pieces(g, s1.extents, s1.pagemap, s1.place) && Fits(s1.extents, s1.pagemap, s1.threads, s1.place)
  {
    hide Rest, Carved, SpanOf;
    RestSize(g, total, s);
    var cl, sp := s.threads[t].cl, s.threads[t].pages.value;
    var s1 := Entered(g, s, t, cl, s.threads[t].n, sp);
    EnteredNew(g, total, s, t);
    forall o | o in s1.place
      ensures Piece(g, s1.extents, s1.pagemap, o) && Fit(s1.extents, s1.pagemap, s1.threads, o, s1.place[o])
    {
      if o in s.place { PieceAt(g, total, s, o); }
    }
    forall y, o | y in s1.extents && s1.extents[y].owner.ListedBy? && s1.extents[y].owner.c < |g| &&
                  o in Carved(g[s1.extents[y].owner.c], s1.extents[y].start)
      ensures o in s1.place
    {
      if y != sp { PiecesAt(g, total, s, y, o); }
    }
  }
}
