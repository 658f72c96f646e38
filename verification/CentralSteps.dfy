/** Each step of the protocol keeps the invariant. */
module CentralSteps {
  import opened Sequences
  import opened CentralState
  import opened CentralProtocol
  import opened CentralSafety

  // ----- facts of the invariant

  lemma ObjectAt(g: Config, total: int, s: State, p: Place, o: Addr)
    requires Rest(g, total, s) && p != AtClient && o in Content(s.central, s.threads, p)
    ensures o in s.place && s.place[o] == p && Fit(s.extents, s.pagemap, s.threads, o, p) && Piece(g, s.extents, s.pagemap, o)
  {
    hide Content, Fit, Piece, OpsOK, LocksOK, Mapped, Owned, Configured, CacheSum, CreditSum;
    assert PlacedAt(s.central, s.threads, s.place, p);
  }

  lemma NoDupAt(g: Config, total: int, s: State, p: Place)
    requires Rest(g, total, s) && p != AtClient
    ensures NoDup(Content(s.central, s.threads, p))
  {
    hide Content, Fits, Pieces, OpsOK, LocksOK, Mapped, Owned, Configured, CacheSum, CreditSum;
    assert PlacedAt(s.central, s.threads, s.place, p);
  }

  lemma SanesSet(g: Config, central: seq<Central>, c: nat, x: Central)
    requires Sanes(g, central) && c < |g| && Sane(g[c], x)
    ensures Sanes(g, central[c := x])
  {
    hide Sane, Capacity, CacheSum, CreditSum;
  }

  lemma SaneAt(g: Config, central: seq<Central>, c: nat)
    requires Sanes(g, central) && c < |g|
    ensures c < |central| && Sane(g[c], central[c])
  {
    hide Sane, Capacity, CacheSum, CreditSum;
  }

  lemma MovedNone(place: map<Addr, Place>, q: Place)
    ensures Moved(place, [], q) == place
  {
  }

  /** A list that keeps its spans and its slots keeps all contents. */
  ghost predicate SameContent(c: Central, c1: Central) {
    c1.spans == c.spans && c1.slots == c.slots
  }

  /** A step that moves no object. */
  lemma QuietStep(g: Config, total: int, s: State, t: nat, op: Op, c: nat, x: Central, locks1: map<Lock, nat>)
    requires Rest(g, total, s) && t < |s.threads| && OpFollows(g, s, t, op) && Hand(op) == Hand(s.threads[t])
    requires c < |g| && SameContent(s.central[c], x) && LocksOK(|g|, s.threads[t := op], locks1)
    requires x.cacheSize + Credit(op) <= s.central[c].cacheSize + Credit(s.threads[t])
    ensures Rest(g, total, s.(central := s.central[c := x], locks := locks1, threads := s.threads[t := op]))
  {
    hide Rest, LocksOK, OpFollows, Hand, Credit;
    RestSize(g, total, s);
    CacheSumUpdate(s.central, c, x);
    CreditSumUpdate(s.threads, t, op);
    MovedNone(s.place, InHand(t));
    QuietMoves(s.central, s.threads, s.place, t, op, c, x);
    MoveStep(g, total, s, t, op, s.central[c := x], locks1, AtClient, InHand(t), []);
  }

  lemma RestSize(g: Config, total: int, s: State)
    requires Rest(g, total, s)
    ensures |g| == |s.central| > 0 && CacheSum(s.central) + CreditSum(s.threads) <= total
    ensures LocksOK(|g|, s.threads, s.locks) && OpsOK(|g|, s.threads) && Configured(g)
  {
  }

  lemma QuietMoves(central: seq<Central>, threads: seq<Op>, place: map<Addr, Place>, t: nat, op: Op, c: nat, x: Central)
    requires t < |threads| && c < |central| && Hand(op) == Hand(threads[t]) && SameContent(central[c], x)
    ensures Moves(central, threads, place, central[c := x], threads[t := op], AtClient, InHand(t), [])
  {
    hide Hand;
    var central1, threads1 := central[c := x], threads[t := op];
    var h := Content(central, threads, InHand(t));
    assert Content(central1, threads1, InHand(t)) == [] + h;
  }

  /** The same, when no list changes. */
  lemma ThreadStep(g: Config, total: int, s: State, t: nat, op: Op, locks1: map<Lock, nat>)
    requires Inv(g, total, s) && t < |s.threads| && OpFollows(g, s, t, op) && Hand(op) == Hand(s.threads[t])
    requires LocksOK(|g|, s.threads[t := op], locks1) && Credit(op) <= Credit(s.threads[t])
    ensures Inv(g, total, s.(locks := locks1, threads := s.threads[t := op]))
  {
    hide Rest, LocksOK, OpFollows, Hand, Credit, Sanes;
    RestSize(g, total, s);
    QuietStep(g, total, s, t, op, 0, s.central[0], locks1);
    assert s.central[0 := s.central[0]] == s.central;
  }

  /** The new operation has the same hand, in the same role. */
  lemma Follows(g: Config, s: State, t: nat, op: Op)
    requires t < |s.threads| && OpOK(|g|, op) && PrivateSpan(op) == PrivateSpan(s.threads[t]) && LocalsOK(g, s.extents, op)
    requires forall o | o in Objs(op) ::
               (o in Objs(s.threads[t]) && HomeOf(op) == HomeOf(s.threads[t])) || (o in Todo(s.threads[t]) && HomeOf(op) == TodoOf(s.threads[t]))
               || o !in Hand(s.threads[t])
    requires forall o | o in Todo(op) ::
               (o in Objs(s.threads[t]) && TodoOf(op) == HomeOf(s.threads[t])) || (o in Todo(s.threads[t]) && TodoOf(op) == TodoOf(s.threads[t]))
               || o !in Hand(s.threads[t])
    ensures OpFollows(g, s, t, op)
  {
    hide ClassOf, OpOK, LocalsOK, PrivateSpan, Objs, Todo, HomeOf, TodoOf, Hand;
  }

  // ----- waiting for a lock, and steps of one thread by itself

  lemma AcquiredSame(n: nat, op: Op)
    requires WaitsFor(n, op).Some? && OpOK(n, op)
    ensures Objs(Acquired(op)) == Objs(op) && Todo(Acquired(op)) == Todo(op) && Hand(Acquired(op)) == Hand(op)
    ensures HomeOf(Acquired(op)) == HomeOf(op) && TodoOf(Acquired(op)) == TodoOf(op)
    ensures PrivateSpan(Acquired(op)) == PrivateSpan(op) && Credit(Acquired(op)) == Credit(op) && OpOK(n, Acquired(op))
    ensures forall l :: Held(n, Acquired(op), l) <==> Held(n, op, l) || l == WaitsFor(n, op).value
  {
  }

  lemma OpAt(g: Config, total: int, s: State, t: nat)
    requires Rest(g, total, s) && t < |s.threads|
    ensures OpOK(|g|, s.threads[t]) && LocalsOK(g, s.extents, s.threads[t])
  {
    hide OpOK, LocalsOK, LocksOK, Mapped, Configured, CacheSum, CreditSum, Placed, Pieces, Fits;
  }

  lemma AcquireStep(g: Config, total: int, s: State, t: nat)
    requires Inv(g, total, s) && t < |s.threads|
    requires WaitsFor(|g|, s.threads[t]).Some? && WaitsFor(|g|, s.threads[t]).value !in s.locks
    ensures Inv(g, total, Next(g, s, t, Go))
  {
    hide Rest, Sanes, LocksOK, OpOK, Acquired, WaitsFor, Held, Hand, Objs, Todo, HomeOf, TodoOf, PrivateSpan, Credit, LocalsOK;
    var op := s.threads[t];
    RestSize(g, total, s);
    OpAt(g, total, s, t);
    AcquiredSame(|g|, op);
    AcquiredLocals(g, s.extents, op);
    LocksTake(|g|, s.threads, s.locks, t, Acquired(op), WaitsFor(|g|, op).value);
    Follows(g, s, t, Acquired(op));
    ThreadStep(g, total, s, t, Acquired(op), s.locks[WaitsFor(|g|, op).value := t]);
  }

  lemma AcquiredLocals(g: Config, extents: map<SpanId, Extent>, op: Op)
    requires LocalsOK(g, extents, op)
    ensures LocalsOK(g, extents, Acquired(op))
  {
  }

  /** A thread goes on under the same locks. */
  lemma GoesOn(g: Config, total: int, s: State, t: nat, op: Op)
    requires Inv(g, total, s) && t < |s.threads| && OpFollows(g, s, t, op) && Hand(op) == Hand(s.threads[t])
    requires Credit(op) <= Credit(s.threads[t]) && forall l :: Held(|g|, op, l) <==> Held(|g|, s.threads[t], l)
    ensures Inv(g, total, Put(s, t, op))
  {
    hide Rest, Sanes, OpFollows, Held, Hand, Credit;
    RestSize(g, total, s);
    LocksSame(|g|, s.threads, s.locks, t, op);
    ThreadStep(g, total, s, t, op, s.locks);
  }

  /** A thread goes on and drops a lock. */
  lemma LetsGo(g: Config, total: int, s: State, t: nat, op: Op, lock: Lock)
    requires Inv(g, total, s) && t < |s.threads| && OpFollows(g, s, t, op) && Hand(op) == Hand(s.threads[t])
    requires Credit(op) <= Credit(s.threads[t])
    requires Held(|g|, s.threads[t], lock) && forall l :: Held(|g|, op, l) <==> Held(|g|, s.threads[t], l) && l != lock
    ensures Inv(g, total, Unlock(Put(s, t, op), lock))
  {
    hide Rest, Sanes, OpFollows, Held, Hand, Credit;
    RestSize(g, total, s);
    LocksDrop(|g|, s.threads, s.locks, t, op, lock);
    ThreadStep(g, total, s, t, op, s.locks - {lock});
  }

  /** Nothing that the invariant knows about a thread gets lost from `op0` to `op`. */
  ghost predicate Continues(g: Config, extents: map<SpanId, Extent>, op0: Op, op: Op) {
    && OpOK(|g|, op) && LocalsOK(g, extents, op) && PrivateSpan(op) == PrivateSpan(op0) && Credit(op) <= Credit(op0)
    && Hand(op) == Hand(op0)
    && (forall o | o in Objs(op) ::
          (o in Objs(op0) && HomeOf(op) == HomeOf(op0)) || (o in Todo(op0) && HomeOf(op) == TodoOf(op0)))
    && (forall o | o in Todo(op) ::
          (o in Objs(op0) && TodoOf(op) == HomeOf(op0)) || (o in Todo(op0) && TodoOf(op) == TodoOf(op0)))
  }

  lemma ContinuesFollows(g: Config, s: State, t: nat, op: Op)
    requires t < |s.threads| && Continues(g, s.extents, s.threads[t], op)
    ensures OpFollows(g, s, t, op) && Hand(op) == Hand(s.threads[t]) && Credit(op) <= Credit(s.threads[t])
  {
    hide OpOK, LocalsOK, PrivateSpan, Objs, Todo, HomeOf, TodoOf, Hand, Credit, OpFollows;
    Follows(g, s, t, op);
  }

  lemma GoesOnTo(g: Config, total: int, s: State, t: nat, op: Op)
    requires Inv(g, total, s) && t < |s.threads| && Continues(g, s.extents, s.threads[t], op)
    requires forall l :: Held(|g|, op, l) <==> Held(|g|, s.threads[t], l)
    ensures Inv(g, total, Put(s, t, op))
  {
    hide Inv, Continues, OpFollows, Held, Hand, Credit;
    ContinuesFollows(g, s, t, op);
    GoesOn(g, total, s, t, op);
  }

  lemma LetsGoTo(g: Config, total: int, s: State, t: nat, op: Op, lock: Lock)
    requires Inv(g, total, s) && t < |s.threads| && Continues(g, s.extents, s.threads[t], op)
    requires Held(|g|, s.threads[t], lock) && forall l :: Held(|g|, op, l) <==> Held(|g|, s.threads[t], l) && l != lock
    ensures Inv(g, total, Unlock(Put(s, t, op), lock))
  {
    hide Inv, Continues, OpFollows, Held, Hand, Credit;
    ContinuesFollows(g, s, t, op);
    LetsGo(g, total, s, t, op, lock);
  }

  /** A thread with a chain for its class goes on to find room for it, or to give
      its objects back. */
  lemma ChainKept(g: Config, extents: map<SpanId, Extent>, op0: Op, op: Op)
    requires (op0.Inserting? || op0.Evicting? || op0.Home?) && OpOK(|g|, op0)
    requires op == Releasing(op0.cl, op0.objs, Finished) ||
             (op.Evicting? && op.cl == op0.cl && op.objs == op0.objs && Credit(op0) == 0 && |op.objs| == g[op0.cl].batch)
    ensures Continues(g, extents, op0, op) && forall l :: Held(|g|, op, l) <==> Held(|g|, op0, l)
  {
    ChainHeld(|g|, op0, op);
    ChainHand(op0, op);
    hide Held, Hand, OpOK, Objs, Todo, HomeOf, TodoOf, PrivateSpan;
  }

  lemma ChainHeld(n: nat, op0: Op, op: Op)
    requires (op0.Inserting? || op0.Evicting? || op0.Home?) && OpOK(n, op0)
    requires op == Releasing(op0.cl, op0.objs, Finished) || (op.Evicting? && op.cl == op0.cl)
    ensures OpOK(n, op) && forall l :: Held(n, op, l) <==> Held(n, op0, l)
  {
  }

  lemma ChainHand(op0: Op, op: Op)
    requires op0.Inserting? || op0.Evicting? || op0.Home?
    requires op == Releasing(op0.cl, op0.objs, Finished) || (op.Evicting? && op.cl == op0.cl && op.objs == op0.objs)
    ensures Hand(op) == op0.objs == Hand(op0) && PrivateSpan(op) == PrivateSpan(op0)
    ensures Objs(op0) == op0.objs && HomeOf(op0) == op0.cl
    ensures if op.Evicting? then Objs(op) == op.objs && HomeOf(op) == op.cl && Todo(op) == []
            else Todo(op) == op.todo && TodoOf(op) == op.l && Objs(op) == []
  {
  }

  lemma EvictingStep(g: Config, total: int, s: State, t: nat, ch: Choice)
    requires Inv(g, total, s) && t < |s.threads| && s.threads[t].Evicting? && ch.Victim? && ch.v < |g|
    ensures Inv(g, total, Next(g, s, t, ch))
  {
    hide Rest, Sanes, LocksOK, Continues, Held;
    OpAt(g, total, s, t);
    var Evicting(cl, objs, force) := s.threads[t];
    if ch.v == cl || !ch.promising {
      var op := if force then Releasing(cl, objs, Finished) else Evicting(cl, objs, true);
      ChainKept(g, s.extents, s.threads[t], op);
      GoesOnTo(g, total, s, t, op);
    } else {
      var op := WantVictim(cl, objs, ch.v, force);
      VictimChosen(g, s.extents, s.threads[t], op);
      LetsGoTo(g, total, s, t, op, ClassLock(cl));
    }
  }

  lemma VictimChosen(g: Config, extents: map<SpanId, Extent>, op0: Op, op: Op)
    requires op0.Evicting? && OpOK(|g|, op0) && LocalsOK(g, extents, op0)
    requires op.WantVictim? && op.cl == op0.cl && op.objs == op0.objs && op.victim < |g| && op.victim != op.cl
    ensures Continues(g, extents, op0, op) && Held(|g|, op0, ClassLock(op0.cl))
    ensures forall l :: Held(|g|, op, l) <==> Held(|g|, op0, l) && l != ClassLock(op0.cl)
  {
  }

  lemma ForkStep(g: Config, total: int, s: State, t: nat, ch: Choice)
    requires Inv(g, total, s) && t < |s.threads| && (s.threads[t].Forking? || s.threads[t].Unforking?)
    requires WaitsFor(|g|, s.threads[t]).None?
    ensures Inv(g, total, Next(g, s, t, ch))
  {
    hide Rest, Sanes, LocksOK, Continues, Held, OpOK, LocalsOK;
    RestSize(g, total, s);
    OpAt(g, total, s, t);
    Forks(g, s.extents, s.threads[t]);
    match s.threads[t]
    case Forking(i) =>
      GoesOnTo(g, total, s, t, Unforking(0));
    case Unforking(i) =>
      if i < |g| {
        LetsGoTo(g, total, s, t, Unforking(i + 1), ClassLock(i));
      } else {
        LetsGoTo(g, total, s, t, Idle, HeapLock);
      }
  }

  lemma Forks(g: Config, extents: map<SpanId, Extent>, op: Op)
    requires OpOK(|g|, op) && WaitsFor(|g|, op).None?
    ensures op.Forking? ==> Continues(g, extents, op, Unforking(0)) && forall l :: Held(|g|, Unforking(0), l) <==> Held(|g|, op, l)
    ensures op.Unforking? && op.i < |g| ==>
              Continues(g, extents, op, Unforking(op.i + 1)) && Held(|g|, op, ClassLock(op.i)) &&
              forall l :: Held(|g|, Unforking(op.i + 1), l) <==> Held(|g|, op, l) && l != ClassLock(op.i)
    ensures op.Unforking? && op.i >= |g| ==>
              Continues(g, extents, op, Idle) && Held(|g|, op, HeapLock) &&
              forall l :: Held(|g|, Idle, l) <==> Held(|g|, op, l) && l != HeapLock
  {
    HandIs(op);
    HandIs(Idle);
    HandIs(Unforking(0));
    if op.Unforking? { HandIs(Unforking(op.i + 1)); }
    hide Hand;
  }

  // ----- objects that change hands

  /** A general move by thread `t` that leaves the list of class `c` as `x`. */
  lemma HandStep(g: Config, total: int, s: State, t: nat, op: Op, c: nat, x: Central, locks1: map<Lock, nat>,
                 p: Place, q: Place, xs: seq<Addr>)
    requires Rest(g, total, s) && t < |s.threads| && OpFollows(g, s, t, op)
    requires c < |g| && x.spans.Keys == s.central[c].spans.Keys && LocksOK(|g|, s.threads[t := op], locks1)
    requires x.cacheSize + Credit(op) <= s.central[c].cacheSize + Credit(s.threads[t])
    requires Moves(s.central, s.threads, s.place, s.central[c := x], s.threads[t := op], p, q, xs)
    requires forall o | o in xs :: o in s.place ==> Fit(s.extents, s.pagemap, s.threads[t := op], o, q)
    ensures Rest(g, total, s.(central := s.central[c := x], locks := locks1, threads := s.threads[t := op], place := Moved(s.place, xs, q)))
  {
    hide Rest, LocksOK, OpFollows, Credit, Moves, Fit;
    RestSize(g, total, s);
    CacheSumUpdate(s.central, c, x);
    CreditSumUpdate(s.threads, t, op);
    MoveStep(g, total, s, t, op, s.central[c := x], locks1, p, q, xs);
  }

  lemma StartInsertStep(g: Config, total: int, s: State, t: nat, ch: Choice)
    requires Inv(g, total, s) && Enabled(g, s, t, ch) && s.threads[t].Idle? && ch.StartInsert?
    ensures Inv(g, total, Next(g, s, t, ch))
  {
    hide Rest, Sanes, LocksOK, Moves, OpFollows, Capacity, Hand;
    RestSize(g, total, s);
    var op := WantInsert(ch.cl, ch.objs);
    HandIs(op);
    assert Hand(Idle) == [] by { HandIs(Idle); }
    Follows(g, s, t, op);
    LocksSame(|g|, s.threads, s.locks, t, op);
    assert s.central[0 := s.central[0]] == s.central;
    InsertMoves(s.central, s.threads, s.place, t, ch.cl, ch.objs);
    HandStep(g, total, s, t, op, 0, s.central[0], s.locks, AtClient, InHand(t), ch.objs);
  }

  lemma InsertMoves(central: seq<Central>, threads: seq<Op>, place: map<Addr, Place>, t: nat, cl: nat, objs: seq<Addr>)
    requires t < |threads| && threads[t].Idle? && NoDup(objs) && forall o | o in objs :: o in place && place[o] == AtClient
    ensures Moves(central, threads, place, central, threads[t := WantInsert(cl, objs)], AtClient, InHand(t), objs)
  {
    hide Content, Hand, NoDup;
    HandChanged(central, threads, t, WantInsert(cl, objs));
    HandContent(central, threads, t);
    HandContent(central, threads[t := WantInsert(cl, objs)], t);
    HandIs(threads[t]);
    HandIs(WantInsert(cl, objs));
    assert objs == objs + [];
  }

  lemma HandChanged(central: seq<Central>, threads: seq<Op>, t: nat, op: Op)
    requires t < |threads|
    ensures forall r | r != InHand(t) :: Content(central, threads[t := op], r) == Content(central, threads, r)
  {
    hide Hand;
  }

  lemma StartStep(g: Config, total: int, s: State, t: nat, ch: Choice)
    requires Inv(g, total, s) && Enabled(g, s, t, ch) && s.threads[t].Idle? && !ch.StartInsert?
    ensures Inv(g, total, Next(g, s, t, ch))
  {
    hide Rest, Sanes, LocksOK;
    RestSize(g, total, s);
    var op := if ch.StartRemove? then WantRemove(ch.cl, ch.n) else WantFork;
    Follows(g, s, t, op);
    GoesOn(g, total, s, t, op);
  }

  /** A chain goes into the transfer cache. */
  lemma StoreStep(g: Config, total: int, s: State, t: nat, cl: nat, c: Central, objs: seq<Addr>)
    requires Inv(g, total, s) && t < |s.threads| && cl < |g| && SameContent(s.central[cl], c)
    requires s.threads[t].Inserting? || s.threads[t].Home?
    requires s.threads[t].cl == cl && s.threads[t].objs == objs
    requires c.cacheSize <= s.central[cl].cacheSize + Credit(s.threads[t]) && Sane(g[cl], Pushed(c, objs))
    ensures Inv(g, total, Stored(s, t, cl, c, objs))
  {
    hide Rest, Sanes, LocksOK, Sane, Capacity, CacheSum, CreditSum, Moves, OpFollows, Fit;
    RestSize(g, total, s);
    SanesSet(g, s.central, cl, Pushed(c, objs));
    LocksDrop(|g|, s.threads, s.locks, t, Idle, ClassLock(cl));
    StoreMoves(g, total, s, t, cl, c, objs);
    HandStep(g, total, s, t, Idle, cl, Pushed(c, objs), s.locks - {ClassLock(cl)}, InHand(t), InSlot(cl, |c.slots|), objs);
  }

  lemma StoreMoves(g: Config, total: int, s: State, t: nat, cl: nat, c: Central, objs: seq<Addr>)
    requires Rest(g, total, s) && t < |s.threads| && cl < |g| == |s.central| && SameContent(s.central[cl], c)
    requires s.threads[t].Inserting? || s.threads[t].Home?
    requires s.threads[t].cl == cl && s.threads[t].objs == objs
    ensures OpFollows(g, s, t, Idle)
    ensures Moves(s.central, s.threads, s.place, s.central[cl := Pushed(c, objs)], s.threads[t := Idle], InHand(t), InSlot(cl, |c.slots|), objs)
    ensures forall o | o in objs :: Fit(s.extents, s.pagemap, s.threads[t := Idle], o, InSlot(cl, |c.slots|))
  {
    hide Rest, ClassOf, Content, Moves, Hand, OpFollows;
    RestSize(g, total, s);
    IdleFollows(g, s, t);
    HandIs(s.threads[t]);
    HandContent(s.central, s.threads, t);
    NoDupAt(g, total, s, InHand(t));
    StoreShape(s.central, s.threads, s.place, t, cl, c, objs);
    forall o | o in objs ensures Fit(s.extents, s.pagemap, s.threads[t := Idle], o, InSlot(cl, |c.slots|)) {
      ObjectAt(g, total, s, InHand(t), o);
    }
  }

  lemma IdleFollows(g: Config, s: State, t: nat)
    requires t < |s.threads| && PrivateSpan(s.threads[t]) == None && |g| > 0
    ensures OpFollows(g, s, t, Idle)
  {
    hide ClassOf;
  }

  lemma HandIs(op: Op)
    ensures op.WantInsert? || op.Inserting? || op.Home? ==> Hand(op) == op.objs
    ensures op.Idle? || op.Forking? || op.Unforking? ==> Hand(op) == []
  {
  }

  lemma StoreShape(central: seq<Central>, threads: seq<Op>, place: map<Addr, Place>, t: nat, cl: nat, c: Central, objs: seq<Addr>)
    requires t < |threads| && cl < |central| && SameContent(central[cl], c) && Hand(threads[t]) == objs && NoDup(objs)
    ensures Moves(central, threads, place, central[cl := Pushed(c, objs)], threads[t := Idle], InHand(t), InSlot(cl, |c.slots|), objs)
  {
    hide Content, NoDup;
    var central1, threads1 := central[cl := Pushed(c, objs)], threads[t := Idle];
    forall r | r != InHand(t) && r != InSlot(cl, |c.slots|) ensures Content(central1, threads1, r) == Content(central, threads, r) {
      StoredElsewhere(central, threads, t, cl, c, objs, r);
    }
    HandContent(central, threads, t);
    HandContent(central1, threads1, t);
    SlotContent(central1, threads1, cl, |c.slots|);
    SlotContent(central, threads, cl, |c.slots|);
    assert Hand(Idle) == [] && objs == objs + [];
  }

  lemma SlotContent(central: seq<Central>, threads: seq<Op>, c: nat, k: nat)
    requires c < |central|
    ensures Content(central, threads, InSlot(c, k)) == if k < |central[c].slots| then central[c].slots[k] else []
  {
  }

  lemma StoredElsewhere(central: seq<Central>, threads: seq<Op>, t: nat, cl: nat, c: Central, objs: seq<Addr>, r: Place)
    requires t < |threads| && cl < |central| && SameContent(central[cl], c) && r != InHand(t) && r != InSlot(cl, |c.slots|)
    ensures Content(central[cl := Pushed(c, objs)], threads[t := Idle], r) == Content(central, threads, r)
  {
    hide Hand;
  }

  lemma InsertingStep(g: Config, total: int, s: State, t: nat)
    requires Inv(g, total, s) && t < |s.threads| && s.threads[t].Inserting?
    ensures Inv(g, total, Next(g, s, t, Go))
  {
    hide Rest, Sanes, LocksOK, Sane, Capacity, CacheSum, CreditSum, Continues, Held;
    RestSize(g, total, s);
    OpAt(g, total, s, t);
    var Inserting(cl, objs) := s.threads[t];
    var c := s.central[cl];
    SaneAt(g, s.central, cl);
    if |objs| == g[cl].batch && |c.slots| < c.cacheSize {
      PushSlot(g[cl], c, objs);
      StoreStep(g, total, s, t, cl, c, objs);
    } else {
      var op := if |objs| != g[cl].batch || c.cacheSize == c.maxCacheSize then Releasing(cl, objs, Finished) else Evicting(cl, objs, false);
      ChainKept(g, s.extents, s.threads[t], op);
      GoesOnTo(g, total, s, t, op);
    }
  }

  lemma ShrinkingStep(g: Config, total: int, s: State, t: nat)
    requires Inv(g, total, s) && t < |s.threads| && s.threads[t].Shrinking?
    ensures Inv(g, total, Next(g, s, t, Go))
  {
    hide Rest, Sanes, LocksOK, Sane, Capacity, CacheSum, CreditSum;
    RestSize(g, total, s);
    OpAt(g, total, s, t);
    var Shrinking(cl, objs, v, force) := s.threads[t];
    var c := s.central[v];
    SaneAt(g, s.central, v);
    CacheBounds(g[v], c);
    if c.cacheSize == 0 || (|c.slots| == c.cacheSize && !force) {
      var op := WantHome(cl, objs, force, false);
      Follows(g, s, t, op);
      LetsGo(g, total, s, t, op, ClassLock(v));
    } else if |c.slots| == c.cacheSize {
      EvictFullStep(g, total, s, t);
    } else {
      var op := WantHome(cl, objs, force, true);
      Follows(g, s, t, op);
      PopSlot(g[v], c);
      SanesSet(g, s.central, v, Shrunk(c));
      LocksDrop(|g|, s.threads, s.locks, t, op, ClassLock(v));
      QuietStep(g, total, s, t, op, v, Shrunk(c), s.locks - {ClassLock(v)});
    }
  }

  lemma CacheBounds(i: ClassInfo, c: Central)
    requires Sane(i, c)
    ensures 0 <= |c.slots| <= c.cacheSize <= c.maxCacheSize <= MAX_TRANSFER_ENTRIES
  {
    hide Listed, Counted;
  }

  /** A forced eviction takes the last chain of a full cache, to release it. */
  lemma EvictFullStep(g: Config, total: int, s: State, t: nat)
    requires Inv(g, total, s) && t < |s.threads| && s.threads[t].Shrinking? && s.threads[t].victim < |g|
    requires var c := s.central[s.threads[t].victim]; c.slots != [] && |c.slots| == c.cacheSize && s.threads[t].force
    ensures Inv(g, total, Next(g, s, t, Go))
  {
    hide Rest, Sanes, LocksOK, Sane, Capacity, CacheSum, CreditSum, Moves, OpFollows, Fit;
    RestSize(g, total, s);
    OpAt(g, total, s, t);
    var Shrinking(cl, objs, v, force) := s.threads[t];
    var c := s.central[v];
    var k := |c.slots| - 1;
    var chain, op := c.slots[k], Releasing(v, c.slots[k], BackHome(cl, objs));
    var x := Shrunk(Popped(c));
    SaneAt(g, s.central, v);
    PopSlot(g[v], c);
    SanesSet(g, s.central, v, x);
    LocksSame(|g|, s.threads, s.locks, t, op);
    EvictMoves(g, total, s, t, x);
    HandStep(g, total, s, t, op, v, x, s.locks, InSlot(v, k), InHand(t), chain);
  }

  lemma EvictMoves(g: Config, total: int, s: State, t: nat, x: Central)
    requires Inv(g, total, s) && t < |s.threads| && s.threads[t].Shrinking? && s.threads[t].victim < |g| == |s.central|
    requires s.central[s.threads[t].victim].slots != [] && x == Shrunk(Popped(s.central[s.threads[t].victim]))
    ensures var Shrinking(cl, objs, v, force) := s.threads[t];
            var k := |s.central[v].slots| - 1;
            var chain := s.central[v].slots[k];
            var op := Releasing(v, chain, BackHome(cl, objs));
            && OpFollows(g, s, t, op)
            && Moves(s.central, s.threads, s.place, s.central[v := x], s.threads[t := op], InSlot(v, k), InHand(t), chain)
            && forall o | o in chain :: Fit(s.extents, s.pagemap, s.threads[t := op], o, InHand(t))
  {
    hide Rest, Sanes, ClassOf, Content, Moves, OpFollows, Hand, Fit;
    RestSize(g, total, s);
    OpAt(g, total, s, t);
    var Shrinking(cl, objs, v, force) := s.threads[t];
    var k := |s.central[v].slots| - 1;
    SlotContent(s.central, s.threads, v, k);
    NoDupAt(g, total, s, InSlot(v, k));
    ChainFits(g, total, s, t, v, k);
    EvictFollows(g, s, t, s.central[v].slots[k]);
    EvictHand(s.threads[t], s.central[v].slots[k]);
    EvictShape(s.central, s.threads, s.place, t, Releasing(v, s.central[v].slots[k], BackHome(cl, objs)), v, x, k);
  }

  lemma EvictHand(op: Op, chain: seq<Addr>)
    requires op.Shrinking?
    ensures Hand(Releasing(op.victim, chain, BackHome(op.cl, op.objs))) == chain + Hand(op)
  {
  }

  lemma EvictFollows(g: Config, s: State, t: nat, chain: seq<Addr>)
    requires t < |s.threads| && s.threads[t].Shrinking? && OpOK(|g|, s.threads[t]) && LocalsOK(g, s.extents, s.threads[t])
    requires forall o | o in chain :: o !in Hand(s.threads[t])
    ensures OpFollows(g, s, t, Releasing(s.threads[t].victim, chain, BackHome(s.threads[t].cl, s.threads[t].objs)))
  {
    hide ClassOf;
  }

  lemma EvictShape(central: seq<Central>, threads: seq<Op>, place: map<Addr, Place>, t: nat, op: Op, v: nat, x: Central, k: nat)
    requires t < |threads| && v < |central| && central[v].slots != [] && k == |central[v].slots| - 1
    requires x == Shrunk(Popped(central[v])) && NoDup(central[v].slots[k]) && Hand(op) == central[v].slots[k] + Hand(threads[t])
    ensures Moves(central, threads, place, central[v := x], threads[t := op], InSlot(v, k), InHand(t), central[v].slots[k])
  {
    hide Content, NoDup, Hand;
    SlotPopped(central, threads, t, op, v, x, k);
    HandContent(central, threads, t);
    HandContent(central[v := x], threads[t := op], t);
  }

  lemma ChainFits(g: Config, total: int, s: State, t: nat, v: nat, k: nat)
    requires Inv(g, total, s) && t < |s.threads| && s.threads[t].Shrinking? && v < |s.central| && k < |s.central[v].slots|
    ensures var op := Releasing(v, s.central[v].slots[k], BackHome(s.threads[t].cl, s.threads[t].objs));
            forall o | o in s.central[v].slots[k] ::
              Fit(s.extents, s.pagemap, s.threads[t := op], o, InHand(t)) && o !in Hand(s.threads[t])
  {
    hide Rest, Sanes, ClassOf;
    forall o | o in s.central[v].slots[k]
      ensures ClassOf(s.extents, s.pagemap, o) == Some(v) && o !in Hand(s.threads[t])
    {
      ObjectAt(g, total, s, InSlot(v, k), o);
      if o in Hand(s.threads[t]) { ObjectAt(g, total, s, InHand(t), o); }
    }
  }

  /** Only the changed parts of a list, and the thread's hand, have new contents. */
  lemma ContentFrame(central: seq<Central>, threads: seq<Op>, c: nat, x: Central, t: nat, op: Op, r: Place)
    requires c < |central| && t < |threads| && r != InHand(t)
    requires r.InSlot? && r.c == c ==> x.slots == central[c].slots
    requires r.InSpan? && r.c == c ==> (r.span in x.spans <==> r.span in central[c].spans)
    requires r.InSpan? && r.c == c && r.span in x.spans ==> x.spans[r.span].objects == central[c].spans[r.span].objects
    ensures Content(central[c := x], threads[t := op], r) == Content(central, threads, r)
  {
    hide Hand;
  }

  lemma SlotPopped(central: seq<Central>, threads: seq<Op>, t: nat, op: Op, c: nat, x: Central, k: nat)
    requires t < |threads| && c < |central| && central[c].slots != [] && k == |central[c].slots| - 1
    requires x.spans == central[c].spans && x.slots == central[c].slots[..k]
    ensures forall r | r != InSlot(c, k) && r != InHand(t) ::
              Content(central[c := x], threads[t := op], r) == Content(central, threads, r)
    ensures Content(central, threads, InSlot(c, k)) == central[c].slots[k] + Content(central[c := x], threads[t := op], InSlot(c, k))
  {
    hide Hand;
  }

  lemma HomeStep(g: Config, total: int, s: State, t: nat)
    requires Inv(g, total, s) && t < |s.threads| && s.threads[t].Home?
    ensures Inv(g, total, Next(g, s, t, Go))
  {
    hide Rest, Sanes, LocksOK, Sane, CacheSum, CreditSum, Content, Acquired, NextEvicting, Capacity, Fetched, Popped, Continues, Held;
    RestSize(g, total, s);
    OpAt(g, total, s, t);
    var Home(cl, objs, force, credit) := s.threads[t];
    var c := s.central[cl];
    if credit && c.cacheSize < c.maxCacheSize {
      SaneAt(g, s.central, cl);
      PushSlot(g[cl], c, objs);
      StoreStep(g, total, s, t, cl, Grown(c), objs);
    } else {
      var op := if !credit && !force then Evicting(cl, objs, true) else Releasing(cl, objs, Finished);
      ChainKept(g, s.extents, s.threads[t], op);
      GoesOnTo(g, total, s, t, op);
    }
  }

  // ----- objects back to their spans

  lemma ReleasedAllStep(g: Config, total: int, s: State, t: nat)
    requires Inv(g, total, s) && t < |s.threads| && s.threads[t].Releasing? && s.threads[t].todo == []
    ensures Inv(g, total, Next(g, s, t, Go))
  {
    hide Rest, Sanes, LocksOK;
    RestSize(g, total, s);
    OpAt(g, total, s, t);
    var Releasing(l, todo, after) := s.threads[t];
    var op := if after.BackHome? then WantHome(after.cl, after.objs, true, true) else Idle;
    assert Hand(op) == [] + Objs(op) == Hand(s.threads[t]);
    Follows(g, s, t, op);
    LetsGo(g, total, s, t, op, ClassLock(l));
  }

  /** The span of an object that is going back is a listed span of class `l`, and
      the object is not on its list. */
  lemma TodoSpan(g: Config, total: int, s: State, t: nat)
    requires Inv(g, total, s) && t < |s.threads| && s.threads[t].Releasing? && s.threads[t].todo != []
    ensures var op := s.threads[t];
            var o := op.todo[0];
            var sp := SpanOf(s.pagemap, o);
            && op.l < |g| == |s.central| && sp in s.central[op.l].spans && sp in s.extents && s.extents[sp].owner == ListedBy(op.l)
            && o in s.place && s.place[o] == InHand(t) && ClassOf(s.extents, s.pagemap, o) == Some(op.l)
            && o in Carved(g[op.l], s.extents[sp].start) && o !in s.central[op.l].spans[sp].objects && o / PAGE_SIZE in s.pagemap
  {
    hide Rest, Sanes, LocksOK, Carved;
    RestSize(g, total, s);
    OpAt(g, total, s, t);
    var op := s.threads[t];
    var o, sp := op.todo[0], SpanOf(s.pagemap, op.todo[0]);
    assert o in Hand(op) && o in Todo(op);
    ObjectAt(g, total, s, InHand(t), o);
    ListsOwnAt(g, total, s, op.l, sp);
    if o in s.central[op.l].spans[sp].objects { ObjectAt(g, total, s, InSpan(op.l, sp), o); }
  }

  lemma ListsOwnAt(g: Config, total: int, s: State, c: nat, sp: SpanId)
    requires Rest(g, total, s) && c < |g|
    ensures sp in s.central[c].spans <==> sp in s.extents && s.extents[sp].owner == ListedBy(c)
  {
    hide Placed, Pieces, Fits, OpsOK, LocksOK, Mapped, ThreadsOwn, Configured, CacheSum, CreditSum;
  }

  /** The number of objects of the span of `o` that are not on its list. */
  function LeftOver(s: State, c: nat, o: Addr): nat {
    var sp := SpanOf(s.pagemap, o);
    if c < |s.central| && sp in s.central[c].spans then s.central[c].spans[sp].refcount else 0
  }

  lemma ReleaseObjectStep(g: Config, total: int, s: State, t: nat)
    requires Inv(g, total, s) && t < |s.threads| && s.threads[t].Releasing? && s.threads[t].todo != []
    requires LeftOver(s, s.threads[t].l, s.threads[t].todo[0]) > 1
    ensures Inv(g, total, Next(g, s, t, Go))
  {
    hide Rest, Sanes, LocksOK, Sane, ClassOf, Carved, SpanOf, Capacity, CacheSum, CreditSum;
    RestSize(g, total, s);
    OpAt(g, total, s, t);
    TodoSpan(g, total, s, t);
    var Releasing(l, todo, after) := s.threads[t];
    var o, c, op := todo[0], s.central[l], Releasing(l, todo[1..], after);
    var sp := SpanOf(s.pagemap, o);
    var x := ReleasedObject(c, sp, o);
    SaneAt(g, s.central, l);
    ReleaseObject(g[l], c, sp, o);
    SanesSet(g, s.central, l, x);
    LocksSame(|g|, s.threads, s.locks, t, op);
    ObjectReleased(s.central, s.threads, t, l, todo, after, sp, x);
    Follows(g, s, t, op);
    HandStep(g, total, s, t, op, l, x, s.locks, InHand(t), InSpan(l, sp), [o]);
    assert Next(g, s, t, Go) == s.(central := s.central[l := x], locks := s.locks, threads := s.threads[t := op],
                                   place := Moved(s.place, [o], InSpan(l, sp)));
  }

  lemma HandShorter(l: nat, todo: seq<Addr>, after: After)
    requires todo != []
    ensures Hand(Releasing(l, todo, after)) == [todo[0]] + Hand(Releasing(l, todo[1..], after))
  {
    assert todo == [todo[0]] + todo[1..];
  }

  lemma ObjectReleased(central: seq<Central>, threads: seq<Op>, t: nat, l: nat, todo: seq<Addr>, after: After, sp: SpanId, x: Central)
    requires t < |threads| && threads[t] == Releasing(l, todo, after) && todo != [] && l < |central|
    requires sp in central[l].spans && central[l].spans[sp].refcount > 1 && x == ReleasedObject(central[l], sp, todo[0])
    ensures var op := Releasing(l, todo[1..], after);
            && Content(central, threads, InHand(t)) == [todo[0]] + Content(central[l := x], threads[t := op], InHand(t))
            && Content(central[l := x], threads[t := op], InSpan(l, sp)) == [todo[0]] + Content(central, threads, InSpan(l, sp))
            && forall r | r != InHand(t) && r != InSpan(l, sp) ::
                 Content(central[l := x], threads[t := op], r) == Content(central, threads, r)
    ensures x.spans.Keys == central[l].spans.Keys && x.cacheSize == central[l].cacheSize
  {
    var op := Releasing(l, todo[1..], after);
    HandShorter(l, todo, after);
    hide Content, Hand;
    forall r | r != InHand(t) && r != InSpan(l, sp) ensures Content(central[l := x], threads[t := op], r) == Content(central, threads, r) {
      ContentFrame(central, threads, l, x, t, op, r);
    }
    SpanContent(central, threads, l, sp);
    SpanContent(central[l := x], threads[t := op], l, sp);
    HandContent(central, threads, t);
    HandContent(central[l := x], threads[t := op], t);
  }

  // ----- objects out of spans

  /** Objects of the first nonempty span go to the thread. */
  lemma TakenStep(g: Config, total: int, s: State, t: nat, cl: nat, n: nat, objs: seq<Addr>)
    requires Rest(g, total, s) && t < |s.threads| && 0 < cl < |g| && n > 0 && |objs| <= n
    requires s.threads[t].Removing? || s.threads[t].Refilling? || s.threads[t].Fetching?
    requires s.threads[t].cl == cl && Hand(s.threads[t]) == objs && PrivateSpan(s.threads[t]) == None
    requires Grab(s.central[cl], n - |objs|) != []
    ensures Rest(g, total, Taken(s, t, cl, n, objs))
  {
    hide Rest, LocksOK, ClassOf, SpanOf, CacheSum, CreditSum, Content, Acquired, AfterHome, NextEvicting;
    RestSize(g, total, s);
    OpAt(g, total, s, t);
    var c := s.central[cl];
    assert c.nonempty != [] && c.nonempty[0] in c.spans;
    hide Fetched;
    var sp, got, x := c.nonempty[0], Grab(c, n - |objs|), Fetched(c, n - |objs|);
    var op := Fetching(cl, n, got + objs);
    LocksSame(|g|, s.threads, s.locks, t, op);
    FetchMoves(s.central, s.threads, t, cl, n, objs);
    NoDupAt(g, total, s, InSpan(cl, sp));
    SpanContent(s.central, s.threads, cl, sp);
    HandContent(s.central, s.threads, t);
    assert NoDup(got);
    forall o | o in got ensures Fit(s.extents, s.pagemap, s.threads[t := op], o, InHand(t)) && o !in objs {
      assert o in Content(s.central, s.threads, InSpan(cl, sp));
      ObjectAt(g, total, s, InSpan(cl, sp), o);
      if o in objs { ObjectAt(g, total, s, InHand(t), o); }
    }
    Follows(g, s, t, op);
    HandStep(g, total, s, t, op, cl, x, s.locks, InSpan(cl, sp), InHand(t), got);
  }

  lemma FetchMoves(central: seq<Central>, threads: seq<Op>, t: nat, cl: nat, n: nat, objs: seq<Addr>)
    requires t < |threads| && cl < |central| && |objs| <= n && Hand(threads[t]) == objs
    requires central[cl].nonempty != [] && central[cl].nonempty[0] in central[cl].spans
    ensures var c := central[cl];
            var sp, got, x := c.nonempty[0], Grab(c, n - |objs|), Fetched(c, n - |objs|);
            var op := Fetching(cl, n, got + objs);
            && |got + objs| <= n
            && Content(central, threads, InSpan(cl, sp)) == got + Content(central[cl := x], threads[t := op], InSpan(cl, sp))
            && Content(central[cl := x], threads[t := op], InHand(t)) == got + Content(central, threads, InHand(t))
            && (forall r | r != InHand(t) && r != InSpan(cl, sp) ::
                  Content(central[cl := x], threads[t := op], r) == Content(central, threads, r))
            && x.spans.Keys == c.spans.Keys && x.cacheSize == c.cacheSize
  {
    hide Content;
    var c := central[cl];
    var sp, got, x := c.nonempty[0], Grab(c, n - |objs|), Fetched(c, n - |objs|);
    var op := Fetching(cl, n, got + objs);
    FetchedParts(c, n - |objs|);
    forall r | r != InHand(t) && r != InSpan(cl, sp) ensures Content(central[cl := x], threads[t := op], r) == Content(central, threads, r) {
      ContentFrame(central, threads, cl, x, t, op, r);
    }
    SpanContent(central, threads, cl, sp);
    SpanContent(central[cl := x], threads[t := op], cl, sp);
    HandContent(central, threads, t);
    HandContent(central[cl := x], threads[t := op], t);
  }

  lemma SpanContent(central: seq<Central>, threads: seq<Op>, c: nat, sp: SpanId)
    requires c < |central| && sp in central[c].spans
    ensures Content(central, threads, InSpan(c, sp)) == central[c].spans[sp].objects
  {
  }

  lemma HandContent(central: seq<Central>, threads: seq<Op>, t: nat)
    requires t < |threads|
    ensures Content(central, threads, InHand(t)) == Hand(threads[t])
  {
  }

  lemma FetchedParts(c: Central, n: nat)
    requires c.nonempty != [] && c.nonempty[0] in c.spans
    ensures var sp, x := c.nonempty[0], Fetched(c, n);
            && x.spans.Keys == c.spans.Keys && x.cacheSize == c.cacheSize && x.slots == c.slots
            && |Grab(c, n)| <= n && c.spans[sp].objects == Grab(c, n) + x.spans[sp].objects
            && forall y | y in c.spans && y != sp :: x.spans[y] == c.spans[y]
  {
  }

  /** The thread leaves with what it got. */
  lemma HandedStep(g: Config, total: int, s: State, t: nat, cl: nat, objs: seq<Addr>)
    requires Inv(g, total, s) && t < |s.threads| && cl < |g|
    requires s.threads[t].Refilling? || s.threads[t].Fetching?
    requires s.threads[t].cl == cl && Hand(s.threads[t]) == objs && PrivateSpan(s.threads[t]) == None
    ensures Inv(g, total, Handed(s, t, cl, objs))
  {
    hide Rest, Sanes, LocksOK, AfterCredit, Piece, Moves, OpFollows, Capacity;
    RestSize(g, total, s);
    LocksDrop(|g|, s.threads, s.locks, t, Idle, ClassLock(cl));
    Follows(g, s, t, Idle);
    assert s.central[cl := s.central[cl]] == s.central;
    NoDupAt(g, total, s, InHand(t));
    HandedMoves(s.central, s.threads, s.place, t, objs);
    HandStep(g, total, s, t, Idle, cl, s.central[cl], s.locks - {ClassLock(cl)}, InHand(t), AtClient, objs);
  }

  lemma HandedMoves(central: seq<Central>, threads: seq<Op>, place: map<Addr, Place>, t: nat, objs: seq<Addr>)
    requires t < |threads| && Hand(threads[t]) == objs && NoDup(objs)
    ensures Moves(central, threads, place, central, threads[t := Idle], InHand(t), AtClient, objs)
  {
    hide Content, Hand, NoDup;
    HandChanged(central, threads, t, Idle);
    HandContent(central, threads, t);
    HandContent(central, threads[t := Idle], t);
    HandIs(Idle);
    assert objs == objs + [];
  }

  lemma FetchingStep(g: Config, total: int, s: State, t: nat)
    requires Inv(g, total, s) && t < |s.threads| && s.threads[t].Fetching?
    ensures Inv(g, total, Next(g, s, t, Go))
  {
    hide Rest, Sanes, LocksOK, Sane, CacheSum, CreditSum, Content, Acquired, AfterHome, NextEvicting, Capacity;
    RestSize(g, total, s);
    OpAt(g, total, s, t);
    var Fetching(cl, n, objs) := s.threads[t];
    var c := s.central[cl];
    assert Hand(s.threads[t]) == objs;
    if |objs| < n && Grab(c, n - |objs|) != [] {
      SaneAt(g, s.central, cl);
      Fetch(g[cl], c, n - |objs|);
      SanesSet(g, s.central, cl, Fetched(c, n - |objs|));
      TakenStep(g, total, s, t, cl, n, objs);
    } else {
      HandedStep(g, total, s, t, cl, objs);
    }
  }

  lemma RemovingStep(g: Config, total: int, s: State, t: nat)
    requires Inv(g, total, s) && t < |s.threads| && s.threads[t].Removing?
    ensures Inv(g, total, Next(g, s, t, Go))
  {
    hide Rest, Sanes, LocksOK, Sane, Acquired, AfterCredit, AfterHome, CreditSum, Mapped, Capacity, CacheSum;
    RestSize(g, total, s);
    OpAt(g, total, s, t);
    var Removing(cl, n) := s.threads[t];
    var c := s.central[cl];
    SaneAt(g, s.central, cl);
    if n == g[cl].batch && |c.slots| > 0 {
      RemoveSlotStep(g, total, s, t);
    } else if Grab(c, n) == [] {
      Follows(g, s, t, WantPages(cl, n));
      LetsGo(g, total, s, t, WantPages(cl, n), ClassLock(cl));
    } else {
      Fetch(g[cl], c, n);
      SanesSet(g, s.central, cl, Fetched(c, n));
      TakenStep(g, total, s, t, cl, n, []);
    }
  }

  /** A whole chain leaves the transfer cache. */
  lemma RemoveSlotStep(g: Config, total: int, s: State, t: nat)
    requires Inv(g, total, s) && t < |s.threads| && s.threads[t].Removing? && s.threads[t].cl < |g|
    requires s.threads[t].n == g[s.threads[t].cl].batch && s.central[s.threads[t].cl].slots != []
    ensures Inv(g, total, Next(g, s, t, Go))
  {
    hide Rest, Sanes, LocksOK, Sane, Capacity, CacheSum, CreditSum;
    RestSize(g, total, s);
    OpAt(g, total, s, t);
    var Removing(cl, n) := s.threads[t];
    var c := s.central[cl];
    var k := |c.slots| - 1;
    SaneAt(g, s.central, cl);
    PopSlot(g[cl], c);
    SanesSet(g, s.central, cl, Popped(c));
    LocksDrop(|g|, s.threads, s.locks, t, Idle, ClassLock(cl));
    SlotPopped(s.central, s.threads, t, Idle, cl, Popped(c), k);
    Follows(g, s, t, Idle);
    NoDupAt(g, total, s, InSlot(cl, k));
    assert Content(s.central[cl := Popped(c)], s.threads[t := Idle], InHand(t)) == Content(s.central, s.threads, InHand(t));
    HandStep(g, total, s, t, Idle, cl, Popped(c), s.locks - {ClassLock(cl)}, InSlot(cl, k), AtClient, c.slots[k]);
  }
}
