/** The protocol over whole runs. */
module CentralTheorems {
  import PageLayout
  import FreeSpans
  import HeapState
  import opened Sequences
  import opened CentralState
  import opened CentralProtocol
  import opened CentralSafety
  import opened CentralSteps
  import opened CentralSpans

  lemma StepKeeps(g: Config, total: int, s: State, t: nat, ch: Choice)
    requires Inv(g, total, s) && Enabled(g, s, t, ch)
    ensures Inv(g, total, Next(g, s, t, ch))
  {
    hide Rest, Sanes, WaitsFor, NextIdle, NextInserting, NextEvicting, NextShrinking, NextHome, NextReleasing, NextRemoving,
      NextPopulating, NextRefilling, NextFetching;
    RestSize(g, total, s);
    OpAt(g, total, s, t);
    OnlyGo(g, s, t, ch);
    var op := s.threads[t];
    if WaitsFor(|g|, op).Some? {
      AcquireStep(g, total, s, t);
      NextWaiting(g, s, t, ch);
    } else {
      RunningStep(g, total, s, t, ch);
    }
  }

  /** Only some operations leave a choice to the environment. */
  lemma OnlyGo(g: Config, s: State, t: nat, ch: Choice)
    requires Enabled(g, s, t, ch)
    ensures WaitsFor(|g|, s.threads[t]).Some? ==> WaitsFor(|g|, s.threads[t]).value !in s.locks
    ensures !s.threads[t].Idle? && !s.threads[t].Evicting? && !s.threads[t].Populating? ==> ch == Go
  {
  }

  lemma NextWaiting(g: Config, s: State, t: nat, ch: Choice)
    requires |s.central| == |g| && t < |s.threads| && WaitsFor(|g|, s.threads[t]).Some?
    ensures Next(g, s, t, ch) == Next(g, s, t, Go)
  {
  }

  lemma RunningStep(g: Config, total: int, s: State, t: nat, ch: Choice)
    requires Inv(g, total, s) && Enabled(g, s, t, ch) && |s.central| == |g| && WaitsFor(|g|, s.threads[t]).None?
    ensures Inv(g, total, Next(g, s, t, ch))
  {
    hide Rest, Sanes, NextIdle, NextInserting, NextEvicting, NextShrinking, NextHome, NextReleasing, NextRemoving,
      NextPopulating, NextRefilling, NextFetching, Next, Fresh;
    OpAt(g, total, s, t);
    match s.threads[t]
    case Idle => if ch.StartInsert? { StartInsertStep(g, total, s, t, ch); } else { StartStep(g, total, s, t, ch); }
    case Inserting(_, _) => InsertingStep(g, total, s, t);
    case Evicting(_, _, _) => EvictingStep(g, total, s, t, ch);
    case Shrinking(_, _, _, _) => ShrinkingStep(g, total, s, t);
    case Home(_, _, _, _) => HomeStep(g, total, s, t);
    case Releasing(_, todo, _) => if todo == [] { ReleasedAllStep(g, total, s, t); } else { ReleasingStep(g, total, s, t); }
    case Deleting(_, _, _, _) => DeletingStep(g, total, s, t);
    case Removing(_, _) => RemovingStep(g, total, s, t);
    case Populating(_, _) => PopulatingStep(g, total, s, t, ch);
    case Refilling(_, _, _) => RefillingStep(g, total, s, t);
    case Fetching(_, _, _) => FetchingStep(g, total, s, t);
    case Forking(_) => ForkStep(g, total, s, t, ch);
    case Unforking(_) => ForkStep(g, total, s, t, ch);
    case _ => assert false;
  }

  lemma ReleasingStep(g: Config, total: int, s: State, t: nat)
    requires Inv(g, total, s) && t < |s.threads| && s.threads[t].Releasing? && s.threads[t].todo != []
    ensures Inv(g, total, Next(g, s, t, Go))
  {
    hide Rest, LocksOK, Next, Carved, ClassOf, SpanOf, Listed, Cached;
    RestSize(g, total, s);
    TodoSpan(g, total, s, t);
    SaneAt(g, s.central, s.threads[t].l);
    assert LeftOver(s, s.threads[t].l, s.threads[t].todo[0]) > 0;
    if LeftOver(s, s.threads[t].l, s.threads[t].todo[0]) > 1 {
      ReleaseObjectStep(g, total, s, t);
    } else {
      DropStep(g, total, s, t);
    }
  }

  // ----- whole runs

  /** All lists as Init leaves them, and no thread inside. */
  function Start(g: Config, n: nat): State
    requires Configured(g)
  {
    State(seq(|g|, c requires 0 <= c < |g| => Initial(c, g[c])), map[], seq(n, _ => Idle), map[], map[], map[])
  }

  /** The slots that all transfer caches have together at the start. */
  function InitialSlots(g: Config): int
    requires Configured(g)
  {
    CacheSum(Start(g, 0).central)
  }

  lemma StartInv(g: Config, n: nat)
    requires Configured(g)
    ensures Inv(g, InitialSlots(g), Start(g, n))
  {
    hide NoDup, Sane, CacheSum, CreditSum, Initial;
    var s := Start(g, n);
    forall c | 0 <= c < |g| ensures Sane(g[c], s.central[c]) && s.central[c].spans == map[] && s.central[c].slots == [] {
      StartSane(c, g[c]);
    }
    NoCredit(s.threads);
    assert s.central == Start(g, 0).central;
    StartPlaced(s.central, s.threads);
  }

  lemma StartSane(c: nat, i: ClassInfo)
    requires Movable(c, i)
    ensures Sane(i, Initial(c, i)) && Initial(c, i).spans == map[] && Initial(c, i).slots == []
  {
    InitialSane(c, i);
  }

  lemma StartPlaced(central: seq<Central>, threads: seq<Op>)
    requires forall c | 0 <= c < |central| :: central[c].spans == map[] && central[c].slots == []
    requires forall t | 0 <= t < |threads| :: threads[t] == Idle
    ensures Placed(central, threads, map[])
  {
    var none: map<Addr, Place> := map[];
    forall p | p != AtClient ensures PlacedAt(central, threads, none, p) {
      assert Content(central, threads, p) == [];
    }
  }

  lemma {:induction false} NoCredit(threads: seq<Op>)
    requires forall t | 0 <= t < |threads| :: threads[t] == Idle
    ensures CreditSum(threads) == 0
  {
    if threads != [] {
      NoCredit(threads[1..]);
    }
  }

  /** `states` is an interleaving: at each step one thread does what it can do. */
  ghost predicate Run(g: Config, states: seq<State>)
    requires Configured(g)
  {
    && states != []
    && (exists n: nat :: states[0] == Start(g, n))
    && forall k, m | 0 <= k && m == k + 1 < |states| :: Steps(g, states[k], states[m])
  }

  ghost predicate Steps(g: Config, s: State, s1: State) {
    |s.central| == |g| && exists t, ch :: Enabled(g, s, t, ch) && s1 == Next(g, s, t, ch)
  }

  lemma {:induction false} RunKeeps(g: Config, states: seq<State>, k: nat)
    requires Configured(g) && Run(g, states) && k < |states|
    ensures Inv(g, InitialSlots(g), states[k])
  {
    hide Inv, Configured, Next;
    if k == 0 {
      var n: nat :| states[0] == Start(g, n);
      StartInv(g, n);
    } else {
      RunKeeps(g, states, k - 1);
      assert Steps(g, states[k - 1], states[k]);
      var t, ch :| Enabled(g, states[k - 1], t, ch) && states[k] == Next(g, states[k - 1], t, ch);
      StepKeeps(g, InitialSlots(g), states[k - 1], t, ch);
    }
  }

  lemma OneHolder(n: nat, threads: seq<Op>, locks: map<Lock, nat>, t: nat, u: nat, l: Lock)
    requires LocksOK(n, threads, locks) && t < |threads| && u < |threads| && Held(n, threads[t], l) && Held(n, threads[u], l)
    ensures t == u && l in locks && locks[l] == t
  {
    hide Held;
    assert Held(n, threads[t], l) <==> l in locks && locks[l] == t;
    assert Held(n, threads[u], l) <==> l in locks && locks[l] == u;
  }

  /** No two threads are ever inside sections of the same lock. */
  lemma MutualExclusion(g: Config, states: seq<State>, k: nat, t: nat, u: nat, l: Lock)
    requires Configured(g) && Run(g, states) && k < |states| && t < |states[k].threads| && u < |states[k].threads|
    requires Held(|g|, states[k].threads[t], l) && Held(|g|, states[k].threads[u], l)
    ensures t == u
  {
    hide Held, Run, Rest, Sanes, Configured;
    RunKeeps(g, states, k);
    var s := states[k];
    RestSize(g, InitialSlots(g), s);
    OneHolder(|g|, s.threads, s.locks, t, u, l);
  }

  /** No cache is ever overrun, and slots are never made from nothing. */
  lemma CachesBounded(g: Config, states: seq<State>, k: nat)
    requires Configured(g) && Run(g, states) && k < |states|
    ensures |states[k].central| == |g|
    ensures forall c | 0 <= c < |g| ::
              var x := states[k].central[c];
              0 <= |x.slots| <= x.cacheSize <= x.maxCacheSize <= MAX_TRANSFER_ENTRIES
    ensures CacheSum(states[k].central) <= InitialSlots(g)
  {
    hide Run, Rest;
    RunKeeps(g, states, k);
    RestSize(g, InitialSlots(g), states[k]);
    forall c | 0 <= c < |g|
      ensures var x := states[k].central[c]; 0 <= |x.slots| <= x.cacheSize <= x.maxCacheSize <= MAX_TRANSFER_ENTRIES
    {
      CacheBounds(g[c], states[k].central[c]);
    }
  }

  /** At all times the free objects are counted, and of each listed span some
      object is in use: its reference count says how many. */
  lemma SpansCounted(g: Config, states: seq<State>, k: nat, c: nat, sp: SpanId)
    requires Configured(g) && Run(g, states) && k < |states| && c < |g|
    ensures |states[k].central| == |g|
    ensures var x := states[k].central[c];
            && (forall y | y in x.nonempty :: y in x.spans) && x.counter == FreeObjects(x.spans, x.nonempty) && x.numSpans == |x.spans|
            && (sp in x.spans ==>
                  && x.spans[sp].refcount > 0 && |x.spans[sp].objects| + x.spans[sp].refcount == Capacity(g[c])
                  && sp in states[k].extents
                  && x.spans[sp].refcount == |Elsewhere(states[k].place, c, sp, Carved(g[c], states[k].extents[sp].start))|)
  {
    hide Run, Rest;
    RunKeeps(g, states, k);
    var s := states[k];
    RestSize(g, InitialSlots(g), s);
    assert Sane(g[c], s.central[c]);
    if sp in s.central[c].spans {
      CountElsewhere(g, InitialSlots(g), s, c, sp);
    }
  }

  /** The pieces of a span that are anywhere but on its list. */
  ghost function Elsewhere(place: map<Addr, Place>, c: nat, sp: SpanId, pieces: seq<Addr>): set<Addr> {
    set o | o in pieces && o in place && place[o] != InSpan(c, sp)
  }

  lemma CountElsewhere(g: Config, total: int, s: State, c: nat, sp: SpanId)
    requires Inv(g, total, s) && c < |g| && sp in s.central[c].spans
    ensures sp in s.extents
    ensures |s.central[c].spans[sp].objects| + |Elsewhere(s.place, c, sp, Carved(g[c], s.extents[sp].start))| == Capacity(g[c])
    ensures forall o | o in Carved(g[c], s.extents[sp].start) :: o in s.place
  {
    hide Rest, Sanes, Carved;
    RestSize(g, total, s);
    ListsOwnAt(g, total, s, c, sp);
    var pieces, objects := Carved(g[c], s.extents[sp].start), s.central[c].spans[sp].objects;
    CarvedWithin(g[c], s.extents[sp].start);
    SpanContent(s.central, s.threads, c, sp);
    NoDupAt(g, total, s, InSpan(c, sp));
    RestPlaced(g, total, s);
    forall o | o in objects ensures o in pieces && o in s.place && s.place[o] == InSpan(c, sp) {
      ObjectAt(g, total, s, InSpan(c, sp), o);
      PieceOf(g, total, s, o, c);
    }
    forall o | o in pieces ensures o in s.place && (s.place[o] == InSpan(c, sp) ==> o in objects) {
      PiecesAt(g, total, s, sp, o);
      assert PlacedAt(s.central, s.threads, s.place, InSpan(c, sp));
    }
    SetOfSeq(objects);
    SetOfSeq(pieces);
    assert Elements(pieces) == Elements(objects) + Elsewhere(s.place, c, sp, pieces);
    assert Elements(objects) !! Elsewhere(s.place, c, sp, pieces);
  }

  /** Every piece of every listed span is at exactly one place, once. */
  lemma ObjectsKept(g: Config, states: seq<State>, k: nat)
    requires Configured(g) && Run(g, states) && k < |states|
    ensures Placed(states[k].central, states[k].threads, states[k].place)
    ensures Pieces(g, states[k].extents, states[k].pagemap, states[k].place)
    ensures Fits(states[k].extents, states[k].pagemap, states[k].threads, states[k].place)
  {
    hide Run, Placed, Pieces, Fits, Owned, Mapped;
    RunKeeps(g, states, k);
  }

  /** What the code asserts where the thread is. */
  ghost predicate Asserts(g: Config, s: State, t: nat)
    requires t < |s.threads| && |s.central| == |g|
  {
    match s.threads[t]
    case Inserting(cl, _) => cl < |g| && (|s.central[cl].slots| < s.central[cl].cacheSize ==> |s.central[cl].slots| < s.central[cl].maxCacheSize)
    case Home(cl, _, _, _) => cl < |g| && (s.central[cl].cacheSize < s.central[cl].maxCacheSize ==> |s.central[cl].slots| < s.central[cl].maxCacheSize)
    case Shrinking(_, _, v, _) => v < |g| && 0 <= |s.central[v].slots| <= s.central[v].cacheSize
    case Releasing(l, todo, _) => todo != [] ==> l < |g| && SpanOf(s.pagemap, todo[0]) in s.extents && LeftOver(s, l, todo[0]) > 0
    case Removing(cl, n) => cl < |g| && n > 0 && Fetchable(s.central[cl])
    case Fetching(cl, n, _) => cl < |g| && n > 0 && Fetchable(s.central[cl])
    case Refilling(cl, n, pages) =>
      cl < |g| && n > 0 && Fetchable(s.central[cl]) &&
      (pages.Some? ==> pages.value in s.extents && s.extents[pages.value].length == g[cl].pages)
    case _ => true
  }

  ghost predicate Fetchable(c: Central) {
    c.nonempty != [] ==> c.nonempty[0] in c.spans && c.spans[c.nonempty[0]].objects != []
  }

  lemma AssertsHold(g: Config, states: seq<State>, k: nat, t: nat)
    requires Configured(g) && Run(g, states) && k < |states| && t < |states[k].threads|
    ensures |states[k].central| == |g| && Asserts(g, states[k], t)
  {
    hide Run, Rest, Sanes, Configured, Carved, ClassOf, SpanOf, LocksOK;
    RunKeeps(g, states, k);
    var s, total := states[k], InitialSlots(g);
    RestSize(g, total, s);
    OpAt(g, total, s, t);
    var op := s.threads[t];
    SaneAt(g, s.central, HomeOf(op));
    SaneAt(g, s.central, TodoOf(op));
    if op.Releasing? && op.todo != [] {
      TodoSpan(g, total, s, t);
    }
    var c := s.central[HomeOf(op)];
    if c.nonempty != [] { assert c.nonempty[0] in c.nonempty; }
  }

  // ----- progress

  /** Only the fork handler holds a lock while it waits for another. */
  lemma WaitsFree(n: nat, op: Op, l: Lock)
    requires Held(n, op, l) && WaitsFor(n, op).Some?
    ensures op.Forking? && op.i < n && WaitsFor(n, op) == Some(ClassLock(op.i)) && Held(n, op, HeapLock)
    ensures !Held(n, op, ClassLock(op.i))
  {
  }

  ghost predicate Blocked(g: Config, s: State, t: nat)
    requires t < |s.threads|
  {
    WaitsFor(|g|, s.threads[t]).Some? && WaitsFor(|g|, s.threads[t]).value in s.locks
  }

  ghost predicate CanStep(g: Config, s: State, t: nat) {
    t < |s.threads| && s.threads[t] != Idle && exists ch :: Enabled(g, s, t, ch)
  }

  lemma UnblockedSteps(g: Config, total: int, s: State, t: nat)
    requires Inv(g, total, s) && t < |s.threads| && s.threads[t] != Idle && !Blocked(g, s, t)
    ensures CanStep(g, s, t)
  {
    RestSize(g, total, s);
    var ch := if s.threads[t].Evicting? then Victim(0, true) else if s.threads[t].Populating? then NoPages else Go;
    assert Enabled(g, s, t, ch);
  }

  /** Some thread that is inside can always go on. */
  lemma DeadlockFree(g: Config, states: seq<State>, k: nat, t: nat)
    requires Configured(g) && Run(g, states) && k < |states|
    requires t < |states[k].threads| && states[k].threads[t] != Idle
    ensures exists u :: CanStep(g, states[k], u)
  {
    hide Run, Rest, Configured, Sanes, CanStep, WaitsFor, Held;
    var s, total, n := states[k], InitialSlots(g), |g|;
    RunKeeps(g, states, k);
    RestSize(g, total, s);
    if !Blocked(g, s, t) {
      UnblockedSteps(g, total, s, t);
    } else {
      var u := s.locks[WaitsFor(n, s.threads[t]).value];
      HolderWorks(n, s.threads[u], WaitsFor(n, s.threads[t]).value);
      if !Blocked(g, s, u) {
        UnblockedSteps(g, total, s, u);
      } else {
        WaitsFree(n, s.threads[u], WaitsFor(n, s.threads[t]).value);
        var l := WaitsFor(n, s.threads[u]).value;
        var v := s.locks[l];
        HolderWorks(n, s.threads[v], l);
        BothFork(g, total, s, u, v, l);
        UnblockedSteps(g, total, s, v);
      }
    }
  }

  lemma HolderWorks(n: nat, op: Op, l: Lock)
    requires Held(n, op, l)
    ensures op != Idle
  {
  }

  /** The handler takes its locks in order, so whom it waits for is not waiting. */
  lemma BothFork(g: Config, total: int, s: State, u: nat, v: nat, l: Lock)
    requires Inv(g, total, s) && u < |s.threads| && v < |s.threads| && s.threads[u].Forking?
    requires WaitsFor(|g|, s.threads[u]) == Some(l) && l == ClassLock(s.threads[u].i) && Held(|g|, s.threads[v], l)
    requires Held(|g|, s.threads[u], HeapLock)
    ensures !Blocked(g, s, v)
  {
    hide Rest, Sanes, Held, WaitsFor, Configured;
    RestSize(g, total, s);
    if Blocked(g, s, v) {
      WaitsFree(|g|, s.threads[v], l);
      OneHolder(|g|, s.threads, s.locks, u, v, HeapLock);
    }
  }

  // ----- the page heap below

  /** A span from PageHeap::New is what the central lists expect of it: not one of
      the spans that they have, and on pages that are in none of these. */
  lemma PagesFresh(spans0: PageLayout.Spans, h: HeapState.Heap, aggressive: bool, r: SpanId, n: nat, extents: map<SpanId, Extent>)
    requires HeapState.Sound(h, {}, {}, aggressive) && HeapState.Allocated(spans0, h.spans, r, n)
    requires forall x | x in extents ::
               x in PageLayout.Used(spans0) && spans0[x].start == extents[x].start && spans0[x].length == extents[x].length
    ensures Fresh(extents, r, h.spans[r].start, n) && h.spans[r].length == n
  {
    hide FreeSpans.Listing, FreeSpans.Coalesced, FreeSpans.Balanced;
    forall x | x in extents
      ensures h.spans[r].start + n <= extents[x].start || extents[x].start + extents[x].length <= h.spans[r].start
    {
      assert x in PageLayout.Used(h.spans) && PageLayout.Used(h.spans)[x] == spans0[x];
      PageLayout.SpansDisjoint(h.spans, h.owner, r, x);
    }
  }
}
