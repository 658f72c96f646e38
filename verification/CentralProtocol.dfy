/** The central free lists as a concurrent protocol: threads interleave between
    the points where central_freelist.cc and static_vars.cc take and drop locks. */
module CentralProtocol {
  import opened Sequences
  import opened CentralState

  datatype Option<T> = None | Some(value: T)

  datatype Lock = HeapLock | ClassLock(c: nat)

  /** What a thread does once a list of objects has gone back to its spans. */
  datatype After = Finished | BackHome(cl: nat, objs: seq<Addr>)

  /** Where a thread is, with its local variables. */
  datatype Op =
    | Idle
    | WantInsert(cl: nat, objs: seq<Addr>)                              // InsertRange, before its lock
    | Inserting(cl: nat, objs: seq<Addr>)
    | Evicting(cl: nat, objs: seq<Addr>, force: bool)                   // MakeCacheSpace
    | WantVictim(cl: nat, objs: seq<Addr>, victim: nat, force: bool)    // LockInverter's constructor
    | Shrinking(cl: nat, objs: seq<Addr>, victim: nat, force: bool)     // ShrinkCache
    | WantHome(cl: nat, objs: seq<Addr>, force: bool, credit: bool)     // LockInverter's destructor
    | Home(cl: nat, objs: seq<Addr>, force: bool, credit: bool)
    | Releasing(l: nat, todo: seq<Addr>, after: After)                  // ReleaseListToSpans
    | Dropping(l: nat, span: SpanId, todo: seq<Addr>, after: After)     // ReleaseToSpans, lock released
    | Deleting(l: nat, span: SpanId, todo: seq<Addr>, after: After)
    | WantReleasing(l: nat, todo: seq<Addr>, after: After)
    | WantRemove(cl: nat, n: nat)                                       // RemoveRange
    | Removing(cl: nat, n: nat)
    | WantPages(cl: nat, n: nat)                                        // Populate, lock released
    | Populating(cl: nat, n: nat)
    | WantRefill(cl: nat, n: nat, pages: Option<SpanId>)
    | Refilling(cl: nat, n: nat, pages: Option<SpanId>)
    | Fetching(cl: nat, n: nat, objs: seq<Addr>)
    | WantFork                                                          // CentralCacheLockAll
    | Forking(i: nat)
    | Unforking(i: nat)                                                 // CentralCacheUnlockAll

  /** Who has a span of pages: the lists of a class, or one thread. */
  datatype Owner = ListedBy(c: nat) | PrivateTo(t: nat)

  datatype Extent = Extent(start: nat, length: nat, owner: Owner)

  /** Where an object is: on its span's free list, in a transfer-cache entry, in
      the hands of a thread inside this code, or with the callers. */
  datatype Place = InSpan(c: nat, span: SpanId) | InSlot(c: nat, slot: nat) | InHand(t: nat) | AtClient

  datatype State = State(central: seq<Central>, locks: map<Lock, nat>, threads: seq<Op>,
                         extents: map<SpanId, Extent>, pagemap: map<nat, SpanId>, place: map<Addr, Place>)

  type Config = seq<ClassInfo>

  /** What the environment decides at a step. `Victim` carries the value of the
      unsynchronised counter and the outcome of ShrinkCache's unlocked check;
      `Pages` is a span that the page heap returned. */
  datatype Choice =
    | Go
    | StartInsert(cl: nat, objs: seq<Addr>)
    | StartRemove(cl: nat, n: nat)
    | StartFork
    | Victim(v: nat, promising: bool)
    | NoPages
    | Pages(span: SpanId, start: nat)

  // ----- what an operation holds

  /** The locks of a thread, when there are `n` class locks. */
  predicate Held(n: nat, op: Op, l: Lock) {
    match op
    case Inserting(cl, _) => l == ClassLock(cl)
    case Evicting(cl, _, _) => l == ClassLock(cl)
    case Shrinking(_, _, victim, _) => l == ClassLock(victim)
    case Home(cl, _, _, _) => l == ClassLock(cl)
    case Releasing(c, _, _) => l == ClassLock(c)
    case Deleting(_, _, _, _) => l == HeapLock
    case Removing(cl, _) => l == ClassLock(cl)
    case Populating(_, _) => l == HeapLock
    case Refilling(cl, _, _) => l == ClassLock(cl)
    case Fetching(cl, _, _) => l == ClassLock(cl)
    case Forking(i) => l == HeapLock || l.c < i
    case Unforking(i) => l == HeapLock || i <= l.c < n
    case _ => false
  }

  /** The lock that a blocked thread waits for, among `n` class locks. */
  function WaitsFor(n: nat, op: Op): Option<Lock> {
    match op
    case WantInsert(cl, _) => Some(ClassLock(cl))
    case WantVictim(_, _, victim, _) => Some(ClassLock(victim))
    case WantHome(cl, _, _, _) => Some(ClassLock(cl))
    case Dropping(_, _, _, _) => Some(HeapLock)
    case WantReleasing(l, _, _) => Some(ClassLock(l))
    case WantRemove(cl, _) => Some(ClassLock(cl))
    case WantPages(_, _) => Some(HeapLock)
    case WantRefill(cl, _, _) => Some(ClassLock(cl))
    case WantFork => Some(HeapLock)
    case Forking(i) => if i < n then Some(ClassLock(i)) else None
    case _ => None
  }

  function Acquired(op: Op): Op {
    match op
    case WantInsert(cl, objs) => Inserting(cl, objs)
    case WantVictim(cl, objs, victim, force) => Shrinking(cl, objs, victim, force)
    case WantHome(cl, objs, force, credit) => Home(cl, objs, force, credit)
    case Dropping(l, span, todo, after) => Deleting(l, span, todo, after)
    case WantReleasing(l, todo, after) => Releasing(l, todo, after)
    case WantRemove(cl, n) => Removing(cl, n)
    case WantPages(cl, n) => Populating(cl, n)
    case WantRefill(cl, n, pages) => Refilling(cl, n, pages)
    case WantFork => Forking(0)
    case Forking(i) => Forking(i + 1)
    case _ => op
  }

  /** The objects of the operation's own class that the thread has. */
  function Objs(op: Op): seq<Addr> {
    match op
    case WantInsert(_, objs) => objs
    case Inserting(_, objs) => objs
    case Evicting(_, objs, _) => objs
    case WantVictim(_, objs, _, _) => objs
    case Shrinking(_, objs, _, _) => objs
    case WantHome(_, objs, _, _) => objs
    case Home(_, objs, _, _) => objs
    case Fetching(_, _, objs) => objs
    case Releasing(_, _, after) => AfterObjs(after)
    case Dropping(_, _, _, after) => AfterObjs(after)
    case Deleting(_, _, _, after) => AfterObjs(after)
    case WantReleasing(_, _, after) => AfterObjs(after)
    case _ => []
  }

  function AfterObjs(after: After): seq<Addr> {
    if after.BackHome? then after.objs else []
  }

  /** The objects that it is giving back to spans of class `l`. */
  function Todo(op: Op): seq<Addr> {
    match op
    case Releasing(_, todo, _) => todo
    case Dropping(_, _, todo, _) => todo
    case Deleting(_, _, todo, _) => todo
    case WantReleasing(_, todo, _) => todo
    case _ => []
  }

  function Hand(op: Op): seq<Addr> { Todo(op) + Objs(op) }

  /** The class of `Objs` and the class of `Todo`. */
  function HomeOf(op: Op): nat {
    match op
    case WantInsert(cl, _) => cl
    case Inserting(cl, _) => cl
    case Evicting(cl, _, _) => cl
    case WantVictim(cl, _, _, _) => cl
    case Shrinking(cl, _, _, _) => cl
    case WantHome(cl, _, _, _) => cl
    case Home(cl, _, _, _) => cl
    case Fetching(cl, _, _) => cl
    case Releasing(_, _, after) => AfterHome(after)
    case Dropping(_, _, _, after) => AfterHome(after)
    case Deleting(_, _, _, after) => AfterHome(after)
    case WantReleasing(_, _, after) => AfterHome(after)
    case WantRemove(cl, _) => cl
    case Removing(cl, _) => cl
    case WantPages(cl, _) => cl
    case Populating(cl, _) => cl
    case WantRefill(cl, _, _) => cl
    case Refilling(cl, _, _) => cl
    case _ => 0
  }

  function AfterHome(after: After): nat {
    if after.BackHome? then after.cl else 0
  }

  function TodoOf(op: Op): nat {
    match op
    case Releasing(l, _, _) => l
    case Dropping(l, _, _, _) => l
    case Deleting(l, _, _, _) => l
    case WantReleasing(l, _, _) => l
    case WantVictim(_, _, victim, _) => victim
    case Shrinking(_, _, victim, _) => victim
    case _ => 0
  }

  /** The span that only this thread has, on its way to or from the page heap. */
  function PrivateSpan(op: Op): Option<SpanId> {
    match op
    case Dropping(_, span, _, _) => Some(span)
    case Deleting(_, span, _, _) => Some(span)
    case WantRefill(_, _, pages) => pages
    case Refilling(_, _, pages) => pages
    case _ => None
  }

  function AfterCredit(after: After): nat { if after.BackHome? then 1 else 0 }

  /** A cache slot that was taken from a victim and not yet given to anyone. */
  function Credit(op: Op): nat {
    match op
    case WantHome(_, _, _, credit) => if credit then 1 else 0
    case Home(_, _, _, credit) => if credit then 1 else 0
    case Releasing(_, _, after) => AfterCredit(after)
    case Dropping(_, _, _, after) => AfterCredit(after)
    case Deleting(_, _, _, after) => AfterCredit(after)
    case WantReleasing(_, _, after) => AfterCredit(after)
    case _ => 0
  }

  // ----- steps

  function SpanOf(pagemap: map<nat, SpanId>, o: Addr): SpanId {
    if o / PAGE_SIZE in pagemap then pagemap[o / PAGE_SIZE] else 0
  }

  /** The class that the span of an object belongs to. */
  function ClassOf(extents: map<SpanId, Extent>, pagemap: map<nat, SpanId>, o: Addr): Option<nat> {
    var sp := SpanOf(pagemap, o);
    if sp in extents && extents[sp].owner.ListedBy? then Some(extents[sp].owner.c) else None
  }

  function Put(s: State, t: nat, op: Op): State
    requires t < |s.threads|
  {
    s.(threads := s.threads[t := op])
  }

  function Unlock(s: State, l: Lock): State { s.(locks := s.locks - {l}) }

  function Moved(place: map<Addr, Place>, xs: seq<Addr>, p: Place): map<Addr, Place> {
    map o | o in place :: if o in xs then p else place[o]
  }

  /** The page heap may return any span of pages that is not out already. */
  ghost predicate Fresh(extents: map<SpanId, Extent>, span: SpanId, start: nat, length: nat) {
    span !in extents && forall x | x in extents :: start + length <= extents[x].start || extents[x].start + extents[x].length <= start
  }

  ghost predicate Enabled(g: Config, s: State, t: nat, ch: Choice) {
    && t < |s.threads|
    && match s.threads[t]
       case Idle =>
         (match ch
          case StartInsert(cl, objs) =>
            0 < cl < |g| && NoDup(objs) &&
            forall o | o in objs :: o in s.place && s.place[o] == AtClient && ClassOf(s.extents, s.pagemap, o) == Some(cl)
          case StartRemove(cl, n) => 0 < cl < |g| && n > 0
          case StartFork => true
          case _ => false)
       case Evicting(_, _, _) => ch.Victim? && ch.v < |g|
       case Populating(cl, _) => ch.NoPages? || (ch.Pages? && cl < |g| && Fresh(s.extents, ch.span, ch.start, g[cl].pages))
       case op => ch.Go? && (WaitsFor(|g|, op).Some? ==> WaitsFor(|g|, op).value !in s.locks)
  }

  function Next(g: Config, s: State, t: nat, ch: Choice): State
    requires |s.central| == |g| && t < |s.threads|
  {
    var op := s.threads[t];
    if WaitsFor(|g|, op).Some? then Put(s, t, Acquired(op)).(locks := s.locks[WaitsFor(|g|, op).value := t])
    else
      match op
      case Idle => NextIdle(s, t, ch)
      case Inserting(cl, objs) => if cl < |g| then NextInserting(g, s, t) else s
      case Evicting(cl, objs, force) => NextEvicting(s, t, ch)
      case Shrinking(cl, objs, victim, force) => if victim < |g| then NextShrinking(g, s, t) else s
      case Home(cl, objs, force, credit) => if cl < |g| then NextHome(s, t) else s
      case Releasing(l, todo, after) => if l < |g| then NextReleasing(g, s, t) else s
      case Deleting(l, span, todo, after) =>
        Unlock(Put(s, t, WantReleasing(l, todo, after)).(extents := s.extents - {span}), HeapLock)
      case Removing(cl, n) => if cl < |g| then NextRemoving(g, s, t) else s
      case Populating(cl, n) => if cl < |g| then NextPopulating(g, s, t, ch) else s
      case Refilling(cl, n, pages) => if cl < |g| then NextRefilling(g, s, t) else s
      case Fetching(cl, n, objs) => if cl < |g| then NextFetching(s, t) else s
      case Forking(i) => Put(s, t, Unforking(0))
      case Unforking(i) =>
        if i < |g| then Unlock(Put(s, t, Unforking(i + 1)), ClassLock(i)) else Unlock(Put(s, t, Idle), HeapLock)
      case _ => s
  }

  function NextIdle(s: State, t: nat, ch: Choice): State
    requires t < |s.threads|
  {
    match ch
    case StartInsert(cl, objs) => Put(s, t, WantInsert(cl, objs)).(place := Moved(s.place, objs, InHand(t)))
    case StartRemove(cl, n) => Put(s, t, WantRemove(cl, n))
    case StartFork => Put(s, t, WantFork)
    case _ => s
  }

  /** A chain goes into the next entry of the transfer cache, and the lock is
      released. */
  function Stored(s: State, t: nat, cl: nat, c: Central, objs: seq<Addr>): State
    requires t < |s.threads| && cl < |s.central|
  {
    Unlock(Put(s, t, Idle).(central := s.central[cl := Pushed(c, objs)], place := Moved(s.place, objs, InSlot(cl, |c.slots|))),
           ClassLock(cl))
  }

  function NextInserting(g: Config, s: State, t: nat): State
    requires |s.central| == |g| && t < |s.threads| && s.threads[t].Inserting? && s.threads[t].cl < |g|
  {
    var Inserting(cl, objs) := s.threads[t];
    var c := s.central[cl];
    if |objs| != g[cl].batch then Put(s, t, Releasing(cl, objs, Finished))
    else if |c.slots| < c.cacheSize then Stored(s, t, cl, c, objs)
    else if c.cacheSize == c.maxCacheSize then Put(s, t, Releasing(cl, objs, Finished))
    else Put(s, t, Evicting(cl, objs, false))
  }

  function NextEvicting(s: State, t: nat, ch: Choice): State
    requires t < |s.threads| && s.threads[t].Evicting?
  {
    var Evicting(cl, objs, force) := s.threads[t];
    if !ch.Victim? then s
    else if ch.v == cl || !ch.promising then
      Put(s, t, if force then Releasing(cl, objs, Finished) else Evicting(cl, objs, true))
    else Unlock(Put(s, t, WantVictim(cl, objs, ch.v, force)), ClassLock(cl))
  }

  function NextShrinking(g: Config, s: State, t: nat): State
    requires |s.central| == |g| && t < |s.threads| && s.threads[t].Shrinking? && s.threads[t].victim < |g|
  {
    var Shrinking(cl, objs, v, force) := s.threads[t];
    var c := s.central[v];
    if c.cacheSize == 0 || (|c.slots| == c.cacheSize && !force) then
      Unlock(Put(s, t, WantHome(cl, objs, force, false)), ClassLock(v))
    else if |c.slots| == c.cacheSize && c.slots != [] then
      var k := |c.slots| - 1;
      Put(s, t, Releasing(v, c.slots[k], BackHome(cl, objs)))
        .(central := s.central[v := Shrunk(Popped(c))], place := Moved(s.place, c.slots[k], InHand(t)))
    else
      Unlock(Put(s, t, WantHome(cl, objs, force, true)).(central := s.central[v := Shrunk(c)]), ClassLock(v))
  }

  function NextHome(s: State, t: nat): State
    requires t < |s.threads| && s.threads[t].Home? && s.threads[t].cl < |s.central|
  {
    var Home(cl, objs, force, credit) := s.threads[t];
    var c := s.central[cl];
    if credit && c.cacheSize < c.maxCacheSize then Stored(s, t, cl, Grown(c), objs)
    else if !credit && !force then Put(s, t, Evicting(cl, objs, true))
    else Put(s, t, Releasing(cl, objs, Finished))
  }

  function NextReleasing(g: Config, s: State, t: nat): State
    requires |s.central| == |g| && t < |s.threads| && s.threads[t].Releasing? && s.threads[t].l < |g|
  {
    var Releasing(l, todo, after) := s.threads[t];
    if todo == [] then
      Unlock(Put(s, t, if after.BackHome? then WantHome(after.cl, after.objs, true, true) else Idle), ClassLock(l))
    else
      var o, c := todo[0], s.central[l];
      var sp := SpanOf(s.pagemap, o);
      if sp !in c.spans || sp !in s.extents then s
      else if c.spans[sp].refcount > 1 then
        Put(s, t, Releasing(l, todo[1..], after))
          .(central := s.central[l := ReleasedObject(c, sp, o)], place := Moved(s.place, [o], InSpan(l, sp)))
      else
        var x := s.extents[sp];
        Unlock(Put(s, t, Dropping(l, sp, todo[1..], after))
                 .(central := s.central[l := ReleasedSpan(g[l], c, sp)],
                   extents := s.extents[sp := x.(owner := PrivateTo(t))],
                   place := s.place - (set a | a in Carved(g[l], x.start))),
               ClassLock(l))
  }

  /** The caller gets `objs`, and the lock is released. */
  function Handed(s: State, t: nat, cl: nat, objs: seq<Addr>): State
    requires t < |s.threads|
  {
    Unlock(Put(s, t, Idle).(place := Moved(s.place, objs, AtClient)), ClassLock(cl))
  }

  /** Objects of the first nonempty span are added in front of `objs`. */
  function Taken(s: State, t: nat, cl: nat, n: nat, objs: seq<Addr>): State
    requires t < |s.threads| && cl < |s.central| && |objs| <= n
  {
    var c := s.central[cl];
    var got := Grab(c, n - |objs|);
    Put(s, t, Fetching(cl, n, got + objs)).(central := s.central[cl := Fetched(c, n - |objs|)], place := Moved(s.place, got, InHand(t)))
  }

  function NextRemoving(g: Config, s: State, t: nat): State
    requires |s.central| == |g| && t < |s.threads| && s.threads[t].Removing? && s.threads[t].cl < |g|
  {
    var Removing(cl, n) := s.threads[t];
    var c := s.central[cl];
    if n == g[cl].batch && |c.slots| > 0 then
      Handed(s.(central := s.central[cl := Popped(c)]), t, cl, c.slots[|c.slots| - 1])
    else if Grab(c, n) == [] then Unlock(Put(s, t, WantPages(cl, n)), ClassLock(cl))
    else Taken(s, t, cl, n, [])
  }

  function NextPopulating(g: Config, s: State, t: nat, ch: Choice): State
    requires t < |s.threads| && s.threads[t].Populating? && s.threads[t].cl < |g|
  {
    var Populating(cl, n) := s.threads[t];
    if ch.Pages? then
      Unlock(Put(s, t, WantRefill(cl, n, Some(ch.span)))
               .(extents := s.extents[ch.span := Extent(ch.start, g[cl].pages, PrivateTo(t))],
                 pagemap := Registered(s.pagemap, ch.start, g[cl].pages, ch.span)),
             HeapLock)
    else Unlock(Put(s, t, WantRefill(cl, n, None)), HeapLock)
  }

  /** Every page of a size-class span is entered in the page map. */
  function Registered(pagemap: map<nat, SpanId>, start: nat, length: nat, span: SpanId): map<nat, SpanId> {
    if length == 0 then pagemap else Registered(pagemap, start, length - 1, span)[start + length - 1 := span]
  }

  function NextRefilling(g: Config, s: State, t: nat): State
    requires |s.central| == |g| && t < |s.threads| && s.threads[t].Refilling? && s.threads[t].cl < |g|
  {
    var Refilling(cl, n, pages) := s.threads[t];
    if pages.Some? && pages.value in s.extents then
      var sp := pages.value;
      var x := s.extents[sp];
      var objects := Carved(g[cl], x.start);
      Taken(s.(central := s.central[cl := WithSpan(g[cl], s.central[cl], sp, x.start)],
               extents := s.extents[sp := x.(owner := ListedBy(cl))],
               place := s.place + map o | o in objects :: InSpan(cl, sp)),
            t, cl, n, [])
    else if Grab(s.central[cl], n) == [] then Handed(s, t, cl, [])
    else Taken(s, t, cl, n, [])
  }

  function NextFetching(s: State, t: nat): State
    requires t < |s.threads| && s.threads[t].Fetching? && s.threads[t].cl < |s.central|
  {
    var Fetching(cl, n, objs) := s.threads[t];
    if |objs| < n && Grab(s.central[cl], n - |objs|) != [] then Taken(s, t, cl, n, objs)
    else Handed(s, t, cl, objs)
  }
}
