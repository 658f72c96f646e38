/** What every step of the central free lists keeps, in every interleaving. */
module CentralSafety {
  import opened Sequences
  import opened CentralState
  import opened CentralProtocol

  // ----- the invariant

  /** Class 0 has no objects; the others have at least one object in a span. */
  ghost predicate Configured(g: Config) {
    |g| > 0 && forall c | 0 < c < |g| :: g[c].size > 0 && g[c].batch > 0 && Capacity(g[c]) > 0
  }

  ghost predicate OpOK(n: nat, op: Op) {
    && HomeOf(op) < n && TodoOf(op) < n
    && (op.Forking? || op.Unforking? ==> op.i <= n)
    && (op.WantRemove? || op.Removing? || op.WantPages? || op.Populating? || op.WantRefill? || op.Refilling? || op.Fetching? ==>
          op.cl > 0 && op.n > 0)
    && (op.Fetching? ==> 0 < |op.objs| <= op.n)
  }

  ghost predicate OpsOK(n: nat, threads: seq<Op>) {
    forall t | 0 <= t < |threads| :: OpOK(n, threads[t])
  }

  /** A lock is recorded for a thread exactly while that thread is where the code
      holds it; so no two threads hold the same lock. */
  ghost predicate LocksOK(n: nat, threads: seq<Op>, locks: map<Lock, nat>) {
    && (forall l | l in locks :: locks[l] < |threads|)
    && (forall t, l | 0 <= t < |threads| :: Held(n, threads[t], l) <==> l in locks && locks[l] == t)
  }

  ghost predicate Sanes(g: Config, central: seq<Central>) {
    |central| == |g| && forall c | 0 <= c < |g| :: Sane(g[c], central[c])
  }

  function CacheSum(central: seq<Central>): int {
    if central == [] then 0 else central[0].cacheSize + CacheSum(central[1..])
  }

  function CreditSum(threads: seq<Op>): nat {
    if threads == [] then 0 else Credit(threads[0]) + CreditSum(threads[1..])
  }

  /** The objects that are kept at a place. */
  function Content(central: seq<Central>, threads: seq<Op>, p: Place): seq<Addr> {
    match p
    case InSpan(c, sp) => if c < |central| && sp in central[c].spans then central[c].spans[sp].objects else []
    case InSlot(c, k) => if c < |central| && k < |central[c].slots| then central[c].slots[k] else []
    case InHand(t) => if t < |threads| then Hand(threads[t]) else []
    case AtClient => []
  }

  ghost predicate PlacedAt(central: seq<Central>, threads: seq<Op>, place: map<Addr, Place>, p: Place) {
    && NoDup(Content(central, threads, p))
    && forall o :: o in Content(central, threads, p) <==> o in place && place[o] == p
  }

  /** Each object is at exactly one place, and there once. */
  ghost predicate Placed(central: seq<Central>, threads: seq<Op>, place: map<Addr, Place>) {
    forall p | p != AtClient :: PlacedAt(central, threads, place, p)
  }

  /** The page map leads from each page of a span to that span. */
  ghost predicate Mapped(extents: map<SpanId, Extent>, pagemap: map<nat, SpanId>) {
    forall sp, q: nat | sp in extents && extents[sp].start <= q < extents[sp].start + extents[sp].length ::
      q in pagemap && pagemap[q] == sp
  }

  ghost predicate ListsOwn(central: seq<Central>, extents: map<SpanId, Extent>) {
    forall c, sp | 0 <= c < |central| :: sp in central[c].spans <==> sp in extents && extents[sp].owner == ListedBy(c)
  }

  ghost predicate ThreadsOwn(threads: seq<Op>, extents: map<SpanId, Extent>) {
    forall t, sp | 0 <= t < |threads| :: PrivateSpan(threads[t]) == Some(sp) <==> sp in extents && extents[sp].owner == PrivateTo(t)
  }

  ghost predicate OwnerOK(g: Config, n: nat, x: Extent) {
    match x.owner
    case ListedBy(c) => c < |g| && x.length == g[c].pages
    case PrivateTo(t) => t < n
  }

  /** New pages have the length that their class asks for, and a thread looks for
      room in the cache only with a chain of full length. */
  ghost predicate LocalsOK(g: Config, extents: map<SpanId, Extent>, op: Op) {
    && ((op.WantRefill? || op.Refilling?) && op.pages.Some? ==>
          op.cl < |g| && op.pages.value in extents && extents[op.pages.value].length == g[op.cl].pages)
    && (op.Evicting? || op.WantVictim? || op.Shrinking? || op.WantHome? || op.Home? || Credit(op) > 0 ==>
          HomeOf(op) < |g| && |Objs(op)| == g[HomeOf(op)].batch)
  }

  /** Every span has exactly one owner. */
  ghost predicate Owned(g: Config, central: seq<Central>, threads: seq<Op>, extents: map<SpanId, Extent>) {
    && ListsOwn(central, extents) && ThreadsOwn(threads, extents)
    && (forall sp | sp in extents :: OwnerOK(g, |threads|, extents[sp]))
    && (forall t | 0 <= t < |threads| :: LocalsOK(g, extents, threads[t]))
  }

  /** An object is one of the pieces that its span was cut into. */
  ghost predicate Piece(g: Config, extents: map<SpanId, Extent>, pagemap: map<nat, SpanId>, o: Addr) {
    && o / PAGE_SIZE in pagemap && SpanOf(pagemap, o) in extents
    && var x := extents[SpanOf(pagemap, o)];
       x.owner.ListedBy? && x.owner.c < |g| && o in Carved(g[x.owner.c], x.start)
  }

  /** The objects are the pieces of the listed spans, all of them. */
  ghost predicate Pieces(g: Config, extents: map<SpanId, Extent>, pagemap: map<nat, SpanId>, place: map<Addr, Place>) {
    && (forall o | o in place :: Piece(g, extents, pagemap, o))
    && (forall sp, o | sp in extents && extents[sp].owner.ListedBy? && extents[sp].owner.c < |g| &&
                       o in Carved(g[extents[sp].owner.c], extents[sp].start) :: o in place)
  }

  ghost predicate FitsHand(op: Op, class_: Option<nat>, o: Addr) {
    (o in Objs(op) ==> class_ == Some(HomeOf(op))) && (o in Todo(op) ==> class_ == Some(TodoOf(op)))
  }

  /** An object is kept only where objects of its class, or of its span, belong. */
  ghost predicate Fit(extents: map<SpanId, Extent>, pagemap: map<nat, SpanId>, threads: seq<Op>, o: Addr, p: Place) {
    match p
    case InSpan(c, sp) => SpanOf(pagemap, o) == sp && ClassOf(extents, pagemap, o) == Some(c)
    case InSlot(c, k) => ClassOf(extents, pagemap, o) == Some(c)
    case InHand(t) => t < |threads| && FitsHand(threads[t], ClassOf(extents, pagemap, o), o)
    case AtClient => true
  }

  ghost predicate Fits(extents: map<SpanId, Extent>, pagemap: map<nat, SpanId>, threads: seq<Op>, place: map<Addr, Place>) {
    forall o | o in place :: Fit(extents, pagemap, threads, o, place[o])
  }

  /** All of the invariant but what concerns one free list by itself. */
  ghost predicate Rest(g: Config, total: int, s: State) {
    && Configured(g) && |s.central| == |g|
    && OpsOK(|g|, s.threads) && LocksOK(|g|, s.threads, s.locks)
    && CacheSum(s.central) + CreditSum(s.threads) <= total
    && Placed(s.central, s.threads, s.place)
    && Mapped(s.extents, s.pagemap) && Owned(g, s.central, s.threads, s.extents)
    && Pieces(g, s.extents, s.pagemap, s.place) && Fits(s.extents, s.pagemap, s.threads, s.place)
  }

  ghost predicate Inv(g: Config, total: int, s: State) {
    Rest(g, total, s) && Sanes(g, s.central)
  }

  // ----- sums

  lemma {:induction false} CacheSumUpdate(central: seq<Central>, c: nat, x: Central)
    requires c < |central|
    ensures CacheSum(central[c := x]) == CacheSum(central) - central[c].cacheSize + x.cacheSize
  {
    if c == 0 {
      assert central[c := x][1..] == central[1..];
    } else {
      CacheSumUpdate(central[1..], c - 1, x);
      assert central[c := x][1..] == central[1..][c - 1 := x];
    }
  }

  lemma {:induction false} CreditSumUpdate(threads: seq<Op>, t: nat, op: Op)
    requires t < |threads|
    ensures CreditSum(threads[t := op]) == CreditSum(threads) - Credit(threads[t]) + Credit(op)
  {
    if t == 0 {
      assert threads[t := op][1..] == threads[1..];
    } else {
      CreditSumUpdate(threads[1..], t - 1, op);
      assert threads[t := op][1..] == threads[1..][t - 1 := op];
    }
  }

  // ----- locks

  lemma LocksSame(n: nat, threads: seq<Op>, locks: map<Lock, nat>, t: nat, op: Op)
    requires LocksOK(n, threads, locks) && t < |threads| && forall l :: Held(n, op, l) <==> Held(n, threads[t], l)
    ensures LocksOK(n, threads[t := op], locks)
  {
    hide Held;
  }

  lemma LocksDrop(n: nat, threads: seq<Op>, locks: map<Lock, nat>, t: nat, op: Op, lock: Lock)
    requires LocksOK(n, threads, locks) && t < |threads| && Held(n, threads[t], lock)
    requires forall l :: Held(n, op, l) <==> Held(n, threads[t], l) && l != lock
    ensures LocksOK(n, threads[t := op], locks - {lock})
  {
    hide Held;
    var threads1 := threads[t := op];
    forall u, l | 0 <= u < |threads1| ensures Held(n, threads1[u], l) <==> l in locks - {lock} && locks[l] == u {
      assert Held(n, threads[u], l) <==> l in locks && locks[l] == u;
    }
  }

  lemma LocksTake(n: nat, threads: seq<Op>, locks: map<Lock, nat>, t: nat, op: Op, lock: Lock)
    requires LocksOK(n, threads, locks) && t < |threads| && lock !in locks
    requires forall l :: Held(n, op, l) <==> Held(n, threads[t], l) || l == lock
    ensures LocksOK(n, threads[t := op], locks[lock := t])
  {
    hide Held;
  }

  // ----- objects that move

  /** Objects `xs` go from place `p` to place `q`, and nothing else moves. */
  ghost predicate Moves(central: seq<Central>, threads: seq<Op>, place: map<Addr, Place>,
                        central1: seq<Central>, threads1: seq<Op>, p: Place, q: Place, xs: seq<Addr>)
  {
    && p != q && NoDup(xs)
    && (forall r | r != p && r != q :: Content(central1, threads1, r) == Content(central, threads, r))
    && (p != AtClient ==> Content(central, threads, p) == xs + Content(central1, threads1, p)
                          || Content(central, threads, p) == Content(central1, threads1, p) + xs)
    && (p == AtClient ==> forall o | o in xs :: o in place && place[o] == AtClient)
    && (q != AtClient ==> Content(central1, threads1, q) == xs + Content(central, threads, q)
                          || Content(central1, threads1, q) == Content(central, threads, q) + xs)
  }

  lemma Transfer(central: seq<Central>, threads: seq<Op>, place: map<Addr, Place>,
                 central1: seq<Central>, threads1: seq<Op>, p: Place, q: Place, xs: seq<Addr>)
    requires Placed(central, threads, place) && Moves(central, threads, place, central1, threads1, p, q, xs)
    ensures Placed(central1, threads1, Moved(place, xs, q))
    ensures forall o | o in xs :: o in place && place[o] == p
  {
    hide Content;
    assert p != AtClient ==> PlacedAt(central, threads, place, p);
    assert forall o | o in xs :: o in place && place[o] == p;
    forall r | r != AtClient ensures PlacedAt(central1, threads1, Moved(place, xs, q), r) {
      assert PlacedAt(central, threads, place, r);
      if r == p { SplitNoDup(xs, Content(central1, threads1, p)); }
      if r == q { JoinNoDup(xs, Content(central, threads, q)); }
    }
  }

  lemma SplitNoDup(xs: seq<Addr>, ys: seq<Addr>)
    ensures NoDup(xs + ys) || NoDup(ys + xs) ==> NoDup(xs) && NoDup(ys) && forall x | x in xs :: x !in ys
  {
    if NoDup(xs + ys) {
      forall i, j | 0 <= i < |xs| && 0 <= j < |ys| ensures xs[i] != ys[j] { assert (xs + ys)[i] != (xs + ys)[|xs| + j]; }
      forall i, j | 0 <= i < j < |ys| ensures ys[i] != ys[j] { assert (xs + ys)[|xs| + i] != (xs + ys)[|xs| + j]; }
      forall i, j | 0 <= i < j < |xs| ensures xs[i] != xs[j] { assert (xs + ys)[i] != (xs + ys)[j]; }
    }
    if NoDup(ys + xs) {
      forall i, j | 0 <= i < |xs| && 0 <= j < |ys| ensures xs[i] != ys[j] { assert (ys + xs)[|ys| + i] != (ys + xs)[j]; }
      forall i, j | 0 <= i < j < |ys| ensures ys[i] != ys[j] { assert (ys + xs)[i] != (ys + xs)[j]; }
      forall i, j | 0 <= i < j < |xs| ensures xs[i] != xs[j] { assert (ys + xs)[|ys| + i] != (ys + xs)[|ys| + j]; }
    }
  }

  lemma JoinNoDup(xs: seq<Addr>, ys: seq<Addr>)
    ensures NoDup(xs) && NoDup(ys) && (forall x | x in xs :: x !in ys) ==> NoDup(xs + ys) && NoDup(ys + xs)
  {
    if NoDup(xs) && NoDup(ys) && forall x | x in xs :: x !in ys {
      forall i, j | 0 <= i < j < |xs + ys| ensures (xs + ys)[i] != (xs + ys)[j] {
        if i < |xs| <= j { assert (xs + ys)[i] in xs && (xs + ys)[j] in ys; }
      }
      forall i, j | 0 <= i < j < |ys + xs| ensures (ys + xs)[i] != (ys + xs)[j] {
        if i < |ys| <= j { assert (ys + xs)[i] in ys && (ys + xs)[j] in xs; }
      }
    }
  }

  /** What the new operation of thread `t` must satisfy for the spans it has and
      the objects it still holds. */
  ghost predicate OpFollows(g: Config, s: State, t: nat, op: Op)
    requires t < |s.threads|
  {
    && OpOK(|g|, op) && PrivateSpan(op) == PrivateSpan(s.threads[t]) && LocalsOK(g, s.extents, op)
    && forall o | o in Hand(op) && o in Hand(s.threads[t]) ::
         FitsHand(s.threads[t], ClassOf(s.extents, s.pagemap, o), o) ==> FitsHand(op, ClassOf(s.extents, s.pagemap, o), o)
  }

  ghost predicate SameSpans(central: seq<Central>, central1: seq<Central>) {
    |central1| == |central| && forall c | 0 <= c < |central| :: central1[c].spans.Keys == central[c].spans.Keys
  }

  /** The general step: thread `t` goes on to `op`, and objects `xs` move. */
  lemma MoveStep(g: Config, total: int, s: State, t: nat, op: Op, central1: seq<Central>, locks1: map<Lock, nat>,
                 p: Place, q: Place, xs: seq<Addr>)
    requires Rest(g, total, s) && t < |s.threads| && OpFollows(g, s, t, op)
    requires SameSpans(s.central, central1) && LocksOK(|g|, s.threads[t := op], locks1)
    requires CacheSum(central1) + CreditSum(s.threads[t := op]) <= total
    requires Moves(s.central, s.threads, s.place, central1, s.threads[t := op], p, q, xs)
    requires forall o | o in xs :: o in s.place ==> Fit(s.extents, s.pagemap, s.threads[t := op], o, q)
    ensures Rest(g, total, s.(central := central1, locks := locks1, threads := s.threads[t := op], place := Moved(s.place, xs, q)))
  {
    hide Configured, OpOK, LocksOK, CacheSum, CreditSum, Mapped, Held, Pieces, LocalsOK, OwnerOK, Moves, Hand, Objs, Todo, HomeOf, TodoOf,
      PrivateSpan, ClassOf, SpanOf, FitsHand, Content, Placed;
    var threads1 := s.threads[t := op];
    Transfer(s.central, s.threads, s.place, central1, threads1, p, q, xs);
    MovedFits(g, s, t, op, central1, q, xs);
    assert Owned(g, central1, threads1, s.extents) by { OwnedFrame(g, s, t, op, central1); }
    MovedPieces(g, s.extents, s.pagemap, s.place, xs, q);
  }

  lemma OwnedFrame(g: Config, s: State, t: nat, op: Op, central1: seq<Central>)
    requires Owned(g, s.central, s.threads, s.extents) && t < |s.threads|
    requires PrivateSpan(op) == PrivateSpan(s.threads[t]) && LocalsOK(g, s.extents, op) && SameSpans(s.central, central1)
    ensures Owned(g, central1, s.threads[t := op], s.extents)
  {
    hide LocalsOK, OwnerOK, PrivateSpan;
    forall c, sp | 0 <= c < |central1| ensures sp in central1[c].spans <==> sp in s.extents && s.extents[sp].owner == ListedBy(c) {
      assert central1[c].spans.Keys == s.central[c].spans.Keys;
      assert sp in central1[c].spans <==> sp in central1[c].spans.Keys;
    }
  }

  lemma MovedPieces(g: Config, extents: map<SpanId, Extent>, pagemap: map<nat, SpanId>, place: map<Addr, Place>, xs: seq<Addr>, q: Place)
    requires Pieces(g, extents, pagemap, place)
    ensures Pieces(g, extents, pagemap, Moved(place, xs, q))
  {
    hide Piece, Carved;
  }

  lemma MovedFits(g: Config, s: State, t: nat, op: Op, central1: seq<Central>, q: Place, xs: seq<Addr>)
    requires t < |s.threads| && Fits(s.extents, s.pagemap, s.threads, s.place) && OpFollows(g, s, t, op)
    requires Placed(s.central, s.threads, s.place) && Placed(central1, s.threads[t := op], Moved(s.place, xs, q))
    requires forall o | o in xs :: o in s.place ==> Fit(s.extents, s.pagemap, s.threads[t := op], o, q)
    ensures Fits(s.extents, s.pagemap, s.threads[t := op], Moved(s.place, xs, q))
  {
    hide OpOK, LocalsOK, Hand, Objs, Todo, HomeOf, TodoOf, PrivateSpan, ClassOf, SpanOf, FitsHand;
    var threads1, place1 := s.threads[t := op], Moved(s.place, xs, q);
    forall o | o in place1 ensures Fit(s.extents, s.pagemap, threads1, o, place1[o]) {
      if o !in xs {
        assert Fit(s.extents, s.pagemap, s.threads, o, s.place[o]);
        if s.place[o] == InHand(t) {
          assert PlacedAt(s.central, s.threads, s.place, InHand(t)) && PlacedAt(central1, threads1, place1, InHand(t));
          assert o in Hand(op) && o in Hand(s.threads[t]);
        }
      }
    }
  }
}
