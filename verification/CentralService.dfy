/** What the calls of the central free lists give their callers, in every run. */
module CentralService {
  import opened Sequences
  import opened CentralState
  import opened CentralProtocol
  import opened CentralSafety
  import opened CentralSteps
  import opened CentralSpans
  import opened CentralTheorems

  /** The step is one of thread `t`. */
  ghost predicate StepBy(g: Config, s: State, t: nat, s1: State) {
    |s.central| == |g| && exists ch :: Enabled(g, s, t, ch) && s1 == Next(g, s, t, ch)
  }

  ghost predicate OneStep(g: Config, states: seq<State>, k: nat, t: nat)
    requires Configured(g)
  {
    && Run(g, states) && k + 1 < |states| && t < |states[k].threads| == |states[k + 1].threads|
    && StepBy(g, states[k], t, states[k + 1])
  }

  lemma StepFacts(g: Config, states: seq<State>, k: nat, t: nat) returns (ch: Choice)
    requires Configured(g) && OneStep(g, states, k, t)
    ensures Inv(g, InitialSlots(g), states[k]) && |states[k].central| == |g| == |states[k + 1].central|
    ensures Enabled(g, states[k], t, ch) && states[k + 1] == Next(g, states[k], t, ch)
    ensures OpOK(|g|, states[k].threads[t]) && LocalsOK(g, states[k].extents, states[k].threads[t])
  {
    hide Run, Inv, Next, Enabled, OpOK, LocalsOK;
    RunKeeps(g, states, k);
    RunKeeps(g, states, k + 1);
    InvSize(g, states[k + 1]);
    ch :| Enabled(g, states[k], t, ch) && states[k + 1] == Next(g, states[k], t, ch);
    StepOps(g, states[k], t);
  }

  lemma InvSize(g: Config, s: State)
    requires Configured(g) && Inv(g, InitialSlots(g), s)
    ensures |s.central| == |g|
  {
    hide Rest;
    RestSize(g, InitialSlots(g), s);
  }

  lemma StepOps(g: Config, s: State, t: nat)
    requires Configured(g) && Inv(g, InitialSlots(g), s) && t < |s.threads|
    ensures OpOK(|g|, s.threads[t]) && LocalsOK(g, s.extents, s.threads[t])
  {
    hide Rest;
    OpAt(g, InitialSlots(g), s, t);
  }

  // ----- RemoveRange

  ghost predicate Serving(op: Op) { op.Removing? || op.Refilling? || op.Fetching? }

  /** The step hands `objs` to the caller: objects of its class that were inside. */
  ghost predicate HandsOver(s: State, s1: State, cl: nat, objs: seq<Addr>) {
    && NoDup(objs) && s1.place == Moved(s.place, objs, AtClient)
    && forall o | o in objs :: o in s.place && s.place[o] != AtClient && ClassOf(s.extents, s.pagemap, o) == Some(cl)
  }

  /** In every run, RemoveRange ends by handing over all `n` objects asked for; or
      fewer, but some, when no listed span has any left; or none, when the page heap
      has refused, and no listed span has any. */
  lemma RemoveEnds(g: Config, states: seq<State>, k: nat, t: nat) returns (objs: seq<Addr>)
    requires Configured(g) && OneStep(g, states, k, t)
    requires Serving(states[k].threads[t]) && states[k + 1].threads[t].Idle?
    ensures var s, s1, op := states[k], states[k + 1], states[k].threads[t];
            && 0 < op.cl < |g| == |s1.central| && HandsOver(s, s1, op.cl, objs) && |objs| <= op.n
            && (|objs| < op.n ==> s1.central[op.cl].nonempty == [])
            && (objs == [] ==> op == Refilling(op.cl, op.n, None))
  {
    hide Run, Inv, Next, Enabled, OpOK, LocalsOK, Configured;
    var ch := StepFacts(g, states, k, t);
    var s, op := states[k], states[k].threads[t];
    objs := HandedObjects(g, s, op);
    HandedFrom(g, InitialSlots(g), s, t, objs);
    HandedSteps(g, s, t, ch, objs);
  }

  /** What such a step would hand over. */
  function HandedObjects(g: Config, s: State, op: Op): seq<Addr> {
    if op.Fetching? then op.objs
    else if op.Removing? && op.cl < |s.central| && s.central[op.cl].slots != [] then
      s.central[op.cl].slots[|s.central[op.cl].slots| - 1]
    else []
  }

  lemma HandedFrom(g: Config, total: int, s: State, t: nat, objs: seq<Addr>)
    requires Inv(g, total, s) && t < |s.threads| && Serving(s.threads[t]) && objs == HandedObjects(g, s, s.threads[t])
    ensures NoDup(objs)
    ensures forall o | o in objs ::
              o in s.place && s.place[o] != AtClient && ClassOf(s.extents, s.pagemap, o) == Some(s.threads[t].cl)
  {
    hide Rest, Sanes, ClassOf;
    RestSize(g, total, s);
    OpAt(g, total, s, t);
    var op := s.threads[t];
    if op.Fetching? || (op.Removing? && s.central[op.cl].slots != []) {
      var p := if op.Fetching? then InHand(t) else InSlot(op.cl, |s.central[op.cl].slots| - 1);
      assert Content(s.central, s.threads, p) == objs by { HandContent(s.central, s.threads, t); }
      NoDupAt(g, total, s, p);
      forall o | o in objs
        ensures o in s.place && s.place[o] != AtClient && ClassOf(s.extents, s.pagemap, o) == Some(op.cl)
      {
        ObjectAt(g, total, s, p, o);
      }
    }
  }

  /** What has to be shown of a step to Idle that hands over `objs`. */
  ghost predicate Served(g: Config, s: State, op: Op, s1: State, objs: seq<Addr>)
    requires Serving(op)
  {
    && 0 < op.cl < |g| == |s1.central| && s1.place == Moved(s.place, objs, AtClient) && |objs| <= op.n
    && (|objs| < op.n ==> s1.central[op.cl].nonempty == [])
    && (objs == [] ==> op == Refilling(op.cl, op.n, None))
  }

  lemma HandedSteps(g: Config, s: State, t: nat, ch: Choice, objs: seq<Addr>)
    requires Configured(g) && Inv(g, InitialSlots(g), s) && t < |s.threads| && |s.central| == |g| && Enabled(g, s, t, ch)
    requires Serving(s.threads[t]) && objs == HandedObjects(g, s, s.threads[t])
    ensures |Next(g, s, t, ch).threads| == |s.threads|
    ensures Next(g, s, t, ch).threads[t].Idle? ==> Served(g, s, s.threads[t], Next(g, s, t, ch), objs)
  {
    hide Rest, Sanes, Capacity, Served, Inv, NextRemoving, NextRefilling, NextFetching, HandedObjects;
    StepOps(g, s, t);
    ServiceSane(g, s, t);
    match s.threads[t]
    case Removing(cl, n) => RemovingEnds(g, s, t, objs);
    case Refilling(cl, n, pages) => RefillingEnds(g, s, t, objs);
    case Fetching(cl, n, done) => FetchingEnds(g, s, t, objs);
  }

  lemma ServiceSane(g: Config, s: State, t: nat)
    requires Configured(g) && Inv(g, InitialSlots(g), s) && t < |s.threads| && |s.central| == |g| && Serving(s.threads[t])
    ensures 0 < s.threads[t].cl < |g| && Sane(g[s.threads[t].cl], s.central[s.threads[t].cl])
    ensures s.threads[t].Refilling? && s.threads[t].pages.Some? ==> s.threads[t].pages.value in s.extents
  {
    hide Rest, Sane;
    StepOps(g, s, t);
    SaneAt(g, s.central, s.threads[t].cl);
  }

  lemma RemovingEnds(g: Config, s: State, t: nat, objs: seq<Addr>)
    requires t < |s.threads| && |s.central| == |g| && s.threads[t].Removing? && 0 < s.threads[t].cl < |g| && s.threads[t].n > 0
    requires Sane(g[s.threads[t].cl], s.central[s.threads[t].cl]) && objs == HandedObjects(g, s, s.threads[t])
    ensures |NextRemoving(g, s, t).threads| == |s.threads|
    ensures NextRemoving(g, s, t).threads[t].Idle? ==> Served(g, s, s.threads[t], NextRemoving(g, s, t), objs)
  {
    hide Moved, Grab, Fetched, Sane, Capacity;
    CachedChains(g[s.threads[t].cl], s.central[s.threads[t].cl]);
  }

  lemma RefillingEnds(g: Config, s: State, t: nat, objs: seq<Addr>)
    requires t < |s.threads| && |s.central| == |g| && s.threads[t].Refilling? && 0 < s.threads[t].cl < |g| && s.threads[t].n > 0
    requires s.threads[t].pages.Some? ==> s.threads[t].pages.value in s.extents
    requires Sane(g[s.threads[t].cl], s.central[s.threads[t].cl]) && objs == HandedObjects(g, s, s.threads[t])
    ensures |NextRefilling(g, s, t).threads| == |s.threads|
    ensures NextRefilling(g, s, t).threads[t].Idle? ==> Served(g, s, s.threads[t], NextRefilling(g, s, t), objs)
  {
    hide Moved, Carved, Grab, Fetched, Sane, Capacity, WithSpan;
    Fetch(g[s.threads[t].cl], s.central[s.threads[t].cl], s.threads[t].n);
  }

  lemma FetchingEnds(g: Config, s: State, t: nat, objs: seq<Addr>)
    requires t < |s.threads| && |s.central| == |g| && s.threads[t].Fetching? && 0 < s.threads[t].cl < |g|
    requires 0 < |s.threads[t].objs| <= s.threads[t].n
    requires Sane(g[s.threads[t].cl], s.central[s.threads[t].cl]) && objs == HandedObjects(g, s, s.threads[t])
    ensures |NextFetching(s, t).threads| == |s.threads|
    ensures NextFetching(s, t).threads[t].Idle? ==> Served(g, s, s.threads[t], NextFetching(s, t), objs)
  {
    hide Moved, Grab, Fetched, Sane, Capacity;
    Fetch(g[s.threads[t].cl], s.central[s.threads[t].cl], s.threads[t].n - |s.threads[t].objs|);
  }

  lemma CachedChains(i: ClassInfo, c: Central)
    requires Sane(i, c)
    ensures forall j | 0 <= j < |c.slots| :: |c.slots[j]| == i.batch
  {
  }

  // ----- Populate

  /** Thread `t` found the list of its class empty in step `i`, and has been on its
      way to the page heap up to `k`. */
  ghost predicate EmptyAt(g: Config, states: seq<State>, i: int, k: int, t: nat, cl: nat, n: nat)
    requires Configured(g)
  {
    && 0 <= i < k < |states| && t < |states[i].threads| && states[i].threads[t] == Removing(cl, n)
    && cl < |g| && cl < |states[i].central| && states[i].central[cl].nonempty == []
    && (n != g[cl].batch || states[i].central[cl].slots == [])
    && forall j | i < j <= k :: t < |states[j].threads| && ToHeap(states[j].threads[t], cl, n)
  }

  ghost predicate ToHeap(op: Op, cl: nat, n: nat) { op == WantPages(cl, n) || op == Populating(cl, n) }

  /** The page heap is asked only for a list that was empty, when the cache could
      not serve the call. */
  lemma {:induction false} EmptyBefore(g: Config, states: seq<State>, k: nat, t: nat, cl: nat, n: nat) returns (i: int)
    requires Configured(g) && Run(g, states) && k < |states| && t < |states[k].threads| && ToHeap(states[k].threads[t], cl, n)
    ensures cl < |g| && EmptyAt(g, states, i, k, t, cl, n)
    decreases k
  {
    hide Inv, Next, Configured;
    if k == 0 {
      StartsIdle(g, states, t);
    } else {
      assert Steps(g, states[k - 1], states[k]);
      var u, ch :| Enabled(g, states[k - 1], u, ch) && states[k] == Next(g, states[k - 1], u, ch);
      RunKeeps(g, states, k - 1);
      InSize(g, states[k - 1], u, ch);
      OtherSame(g, states[k - 1], u, ch);
      if ToHeap(states[k - 1].threads[t], cl, n) {
        i := EmptyBefore(g, states, k - 1, t, cl, n);
      } else {
        i := k - 1;
        assert u == t;
        IntoHeap(g, states[k - 1], t, ch, cl, n);
      }
    }
  }

  lemma StartsIdle(g: Config, states: seq<State>, t: nat)
    requires Configured(g) && Run(g, states) && t < |states[0].threads|
    ensures states[0].threads[t] == Idle
  {
  }

  lemma InSize(g: Config, s: State, u: nat, ch: Choice)
    requires Configured(g) && Inv(g, InitialSlots(g), s) && Enabled(g, s, u, ch)
    ensures |s.central| == |g| && u < |s.threads|
  {
    hide Rest;
    RestSize(g, InitialSlots(g), s);
  }

  ghost predicate OnlyThread(s: State, s1: State, t: nat) {
    |s1.threads| == |s.threads| && forall u | 0 <= u < |s.threads| && u != t :: s1.threads[u] == s.threads[u]
  }

  ghost predicate WithHeap(op: Op) { op.WantPages? || op.Populating? || op.WantRefill? || op.Refilling? }

  /** A step of thread `t` alone that does not take it to the page heap. */
  ghost predicate Quiet(s: State, s1: State, t: nat) {
    OnlyThread(s, s1, t) && t < |s1.threads| && !WithHeap(s1.threads[t])
  }

  lemma IdleQuiet(s: State, t: nat, ch: Choice)
    requires t < |s.threads| && s.threads[t].Idle?
    ensures Quiet(s, NextIdle(s, t, ch), t)
  {
  }

  lemma InsertingQuiet(g: Config, s: State, t: nat)
    requires t < |s.threads| && |s.central| == |g| && s.threads[t].Inserting? && s.threads[t].cl < |g|
    ensures Quiet(s, NextInserting(g, s, t), t)
  {
  }

  lemma EvictingQuiet(s: State, t: nat, ch: Choice)
    requires t < |s.threads| && s.threads[t].Evicting?
    ensures Quiet(s, NextEvicting(s, t, ch), t)
  {
  }

  lemma ShrinkingQuiet(g: Config, s: State, t: nat)
    requires t < |s.threads| && |s.central| == |g| && s.threads[t].Shrinking? && s.threads[t].victim < |g|
    ensures Quiet(s, NextShrinking(g, s, t), t)
  {
  }

  lemma HomeQuiet(s: State, t: nat)
    requires t < |s.threads| && s.threads[t].Home? && s.threads[t].cl < |s.central|
    ensures Quiet(s, NextHome(s, t), t)
  {
  }

  lemma ReleasingQuiet(g: Config, s: State, t: nat)
    requires t < |s.threads| && |s.central| == |g| && s.threads[t].Releasing? && s.threads[t].l < |g|
    ensures Quiet(s, NextReleasing(g, s, t), t)
  {
    hide Carved, ReleasedObject, ReleasedSpan;
  }

  lemma FetchingQuiet(s: State, t: nat)
    requires t < |s.threads| && s.threads[t].Fetching? && s.threads[t].cl < |s.central|
    ensures Quiet(s, NextFetching(s, t), t)
  {
    hide Grab, Fetched;
  }

  lemma RemovingThread(g: Config, s: State, t: nat)
    requires t < |s.threads| && |s.central| == |g| && s.threads[t].Removing? && s.threads[t].cl < |g|
    ensures var s1, op := NextRemoving(g, s, t), s.threads[t];
            && OnlyThread(s, s1, t)
            && (WithHeap(s1.threads[t]) ==>
                  && s1.threads[t] == WantPages(op.cl, op.n) && Grab(s.central[op.cl], op.n) == []
                  && (op.n != g[op.cl].batch || s.central[op.cl].slots == []))
  {
    hide Grab, Fetched;
  }

  lemma RefillingThread(g: Config, s: State, t: nat)
    requires t < |s.threads| && |s.central| == |g| && s.threads[t].Refilling? && s.threads[t].cl < |g|
    ensures Quiet(s, NextRefilling(g, s, t), t)
  {
    hide Grab, Fetched, Carved, WithSpan;
  }

  lemma PopulatingThread(g: Config, s: State, t: nat, ch: Choice)
    requires t < |s.threads| && |s.central| == |g| && s.threads[t].Populating? && s.threads[t].cl < |g|
    ensures var s1, op := NextPopulating(g, s, t, ch), s.threads[t];
            && OnlyThread(s, s1, t)
            && (if ch.Pages? then
                  s1.threads[t] == WantRefill(op.cl, op.n, Some(ch.span)) && s1.extents.Keys == s.extents.Keys + {ch.span}
                else s1.threads[t] == WantRefill(op.cl, op.n, None) && s1.extents == s.extents)
  {
    hide Registered;
  }

  /** If the step leaves the thread anew on its way to the page heap or back, it did
      one of three things. */
  ghost predicate HeapStep(g: Config, s: State, t: nat, ch: Choice, s1: State)
    requires |s.central| == |g| && t < |s.threads|
  {
    && OnlyThread(s, s1, t)
    && var op := s.threads[t];
       (WithHeap(s1.threads[t]) && s1.threads[t] != op ==>
          || (WaitsFor(|g|, op).Some? && WithHeap(op) && s1.threads[t] == Acquired(op))
          || (op.Removing? && op.cl < |g| && s1.threads[t] == WantPages(op.cl, op.n) && Grab(s.central[op.cl], op.n) == [] &&
              (op.n != g[op.cl].batch || s.central[op.cl].slots == []))
          || (op.Populating? && op.cl < |g| && s1 == NextPopulating(g, s, t, ch)))
  }

  lemma QuietHeapStep(g: Config, s: State, t: nat, ch: Choice, s1: State)
    requires |s.central| == |g| && t < |s.threads| && (Quiet(s, s1, t) || s1 == s)
    ensures HeapStep(g, s, t, ch, s1)
  {
    hide NextPopulating, Grab;
  }

  lemma WaitHeapStep(g: Config, s: State, t: nat, ch: Choice)
    requires |s.central| == |g| && t < |s.threads| && WaitsFor(|g|, s.threads[t]).Some?
    ensures HeapStep(g, s, t, ch, Next(g, s, t, ch))
  {
    hide NextPopulating, Grab;
  }

  lemma RemovingHeapStep(g: Config, s: State, t: nat, ch: Choice)
    requires |s.central| == |g| && t < |s.threads| && s.threads[t].Removing? && s.threads[t].cl < |g|
    ensures HeapStep(g, s, t, ch, NextRemoving(g, s, t))
  {
    hide NextRemoving, NextPopulating, Grab;
    RemovingThread(g, s, t);
  }

  lemma PopulatingHeapStep(g: Config, s: State, t: nat, ch: Choice)
    requires |s.central| == |g| && t < |s.threads| && s.threads[t].Populating? && s.threads[t].cl < |g|
    ensures HeapStep(g, s, t, ch, NextPopulating(g, s, t, ch))
  {
    hide NextPopulating, Grab;
    PopulatingThread(g, s, t, ch);
  }

  lemma StepThread(g: Config, s: State, t: nat, ch: Choice)
    requires |s.central| == |g| && t < |s.threads|
    ensures HeapStep(g, s, t, ch, Next(g, s, t, ch))
  {
    hide NextIdle, NextInserting, NextEvicting, NextShrinking, NextHome, NextReleasing, NextRemoving, NextPopulating, NextRefilling,
      NextFetching, HeapStep, Acquired;
    var op := s.threads[t];
    if WaitsFor(|g|, op).Some? {
      WaitHeapStep(g, s, t, ch);
    } else {
      match op {
        case Idle => IdleQuiet(s, t, ch);
        case Inserting(cl, _) => if cl < |g| { InsertingQuiet(g, s, t); }
        case Evicting(_, _, _) => EvictingQuiet(s, t, ch);
        case Shrinking(_, _, v, _) => if v < |g| { ShrinkingQuiet(g, s, t); }
        case Home(cl, _, _, _) => if cl < |g| { HomeQuiet(s, t); }
        case Releasing(l, _, _) => if l < |g| { ReleasingQuiet(g, s, t); }
        case Removing(cl, _) => if cl < |g| { RemovingHeapStep(g, s, t, ch); }
        case Populating(cl, _) => if cl < |g| { PopulatingHeapStep(g, s, t, ch); }
        case Refilling(cl, _, _) => if cl < |g| { RefillingThread(g, s, t); }
        case Fetching(cl, _, _) => if cl < |g| { FetchingQuiet(s, t); }
        case _ => OwnQuiet(g, s, t, ch);
      }
      if Quiet(s, Next(g, s, t, ch), t) || Next(g, s, t, ch) == s { QuietHeapStep(g, s, t, ch, Next(g, s, t, ch)); }
    }
  }

  lemma OwnQuiet(g: Config, s: State, t: nat, ch: Choice)
    requires |s.central| == |g| && t < |s.threads| && WaitsFor(|g|, s.threads[t]).None?
    requires s.threads[t].Deleting? || s.threads[t].Forking? || s.threads[t].Unforking?
    ensures Quiet(s, Next(g, s, t, ch), t)
  {
  }

  lemma OtherSame(g: Config, s: State, u: nat, ch: Choice)
    requires |s.central| == |g| && u < |s.threads|
    ensures |Next(g, s, u, ch).threads| == |s.threads|
    ensures forall t | 0 <= t < |s.threads| && t != u :: Next(g, s, u, ch).threads[t] == s.threads[t]
  {
    hide Next, Grab;
    StepThread(g, s, u, ch);
  }

  lemma IntoHeap(g: Config, s: State, t: nat, ch: Choice, cl: nat, n: nat)
    requires Configured(g) && Inv(g, InitialSlots(g), s) && t < |s.threads| && |s.central| == |g|
    requires t < |Next(g, s, t, ch).threads| && ToHeap(Next(g, s, t, ch).threads[t], cl, n) && !ToHeap(s.threads[t], cl, n)
    ensures s.threads[t] == Removing(cl, n) && cl < |g| && s.central[cl].nonempty == []
    ensures n != g[cl].batch || s.central[cl].slots == []
  {
    hide Rest, Moved, Carved, Fetched, Sanes, Capacity, Sane, Inv, Grab;
    OnlyFromRemoving(g, s, t, ch, cl, n);
    StepOps(g, s, t);
    ServiceSane(g, s, t);
    Fetch(g[cl], s.central[cl], n);
  }

  lemma OnlyFromRemoving(g: Config, s: State, t: nat, ch: Choice, cl: nat, n: nat)
    requires t < |s.threads| && |s.central| == |g|
    requires t < |Next(g, s, t, ch).threads| && ToHeap(Next(g, s, t, ch).threads[t], cl, n) && !ToHeap(s.threads[t], cl, n)
    ensures s.threads[t] == Removing(cl, n) && cl < |g| && Grab(s.central[cl], n) == []
    ensures n != g[cl].batch || s.central[cl].slots == []
  {
    hide Next, Grab, NextPopulating;
    StepThread(g, s, t, ch);
    if s.threads[t].Populating? && s.threads[t].cl < |g| { PopulatingThread(g, s, t, ch); }
  }

  /** The page heap answered thread `t` in step `i`, and the thread has been on its
      way back to the list with that answer up to `k`. */
  ghost predicate AnsweredAt(states: seq<State>, i: int, k: int, t: nat, cl: nat, n: nat, pages: Option<SpanId>) {
    && 0 <= i < k < |states| && t < |states[i].threads| && states[i].threads[t] == Populating(cl, n)
    && (if pages.None? then states[i + 1].extents == states[i].extents
        else states[i + 1].extents.Keys == states[i].extents.Keys + {pages.value} && pages.value !in states[i].extents)
    && forall j | i < j <= k :: t < |states[j].threads| && FromHeap(states[j].threads[t], cl, n, pages)
  }

  ghost predicate FromHeap(op: Op, cl: nat, n: nat, pages: Option<SpanId>) {
    op == WantRefill(cl, n, pages) || op == Refilling(cl, n, pages)
  }

  /** A thread comes back from the page heap only with its answer: a new span, or
      none, in which case nothing was handed out to this thread. */
  lemma {:induction false} AnsweredBefore(g: Config, states: seq<State>, k: nat, t: nat, cl: nat, n: nat, pages: Option<SpanId>)
    returns (i: int)
    requires Configured(g) && Run(g, states) && k < |states| && t < |states[k].threads| && FromHeap(states[k].threads[t], cl, n, pages)
    ensures AnsweredAt(states, i, k, t, cl, n, pages)
    decreases k
  {
    hide Inv, Next, Configured;
    if k == 0 {
      StartsIdle(g, states, t);
    } else {
      assert Steps(g, states[k - 1], states[k]);
      var u, ch :| Enabled(g, states[k - 1], u, ch) && states[k] == Next(g, states[k - 1], u, ch);
      RunKeeps(g, states, k - 1);
      InSize(g, states[k - 1], u, ch);
      OtherSame(g, states[k - 1], u, ch);
      if FromHeap(states[k - 1].threads[t], cl, n, pages) {
        i := AnsweredBefore(g, states, k - 1, t, cl, n, pages);
      } else {
        i := k - 1;
        assert u == t;
        OnlyFromPopulating(g, states[k - 1], t, ch, cl, n, pages);
      }
    }
  }

  lemma OnlyFromPopulating(g: Config, s: State, t: nat, ch: Choice, cl: nat, n: nat, pages: Option<SpanId>)
    requires t < |s.threads| && |s.central| == |g| && Enabled(g, s, t, ch)
    requires t < |Next(g, s, t, ch).threads| && FromHeap(Next(g, s, t, ch).threads[t], cl, n, pages)
    requires !FromHeap(s.threads[t], cl, n, pages)
    ensures var s1 := Next(g, s, t, ch);
            && s.threads[t] == Populating(cl, n)
            && (if pages.None? then s1.extents == s.extents
                else s1.extents.Keys == s.extents.Keys + {pages.value} && pages.value !in s.extents)
  {
    hide Next, Grab, NextPopulating;
    StepThread(g, s, t, ch);
    if s.threads[t].Populating? && s.threads[t].cl < |g| { PopulatingThread(g, s, t, ch); }
  }

  /** In every run, a call of RemoveRange that gives its caller nothing found the list
      empty, then asked the page heap, was refused, and found the list empty again. */
  lemma NothingRemoved(g: Config, states: seq<State>, k: nat, t: nat, objs: seq<Addr>) returns (i: int, j: int)
    requires Configured(g) && OneStep(g, states, k, t) && Serving(states[k].threads[t]) && states[k + 1].threads[t].Idle?
    requires states[k].threads[t].Refilling? && states[k].threads[t].pages.None?
    ensures var cl, n := states[k].threads[t].cl, states[k].threads[t].n;
            && cl < |g| && i < j < k && AnsweredAt(states, j, k, t, cl, n, None) && EmptyAt(g, states, i, j, t, cl, n)
  {
    hide Run, Inv, Next, Enabled, Configured, StepBy;
    var cl, n := states[k].threads[t].cl, states[k].threads[t].n;
    j := AnsweredBefore(g, states, k, t, cl, n, None);
    i := EmptyBefore(g, states, j, t, cl, n);
  }

  // ----- InsertRange

  /** The list `c1` is `c` with one more chain, and `more` more slots. */
  ghost predicate Stores(c: Central, c1: Central, objs: seq<Addr>, more: int) {
    c1.slots == c.slots + [objs] && c1.cacheSize == c.cacheSize + more && c1.spans == c.spans
  }

  /** In every run, a chain of full length is stored whenever a slot is free, or one
      was won and the cache may still grow. Otherwise the thread first tries a victim
      that need not give up a chain, and then one that must, before it gives the
      objects back to their spans. */
  lemma ChainStored(g: Config, states: seq<State>, k: nat, t: nat)
    requires Configured(g) && OneStep(g, states, k, t)
    ensures var s, s1, op, op1 := states[k], states[k + 1], states[k].threads[t], states[k + 1].threads[t];
            && |s.central| == |g| == |s1.central|
            && (op.Inserting? ==>
                  && op.cl < |g|
                  && var c := s.central[op.cl];
                     if |op.objs| == g[op.cl].batch && |c.slots| < c.cacheSize then
                       op1.Idle? && Stores(c, s1.central[op.cl], op.objs, 0)
                     else if |op.objs| == g[op.cl].batch && c.cacheSize < c.maxCacheSize then op1 == Evicting(op.cl, op.objs, false)
                     else op1 == Releasing(op.cl, op.objs, Finished))
            && (op.Evicting? ==>
                  || (op1.WantVictim? && op1 == WantVictim(op.cl, op.objs, op1.victim, op.force) && op1.victim != op.cl)
                  || op1 == if op.force then Releasing(op.cl, op.objs, Finished) else Evicting(op.cl, op.objs, true))
            && (op.Home? ==>
                  && op.cl < |g|
                  && var c := s.central[op.cl];
                     if op.credit && c.cacheSize < c.maxCacheSize then op1.Idle? && Stores(c, s1.central[op.cl], op.objs, 1)
                     else if !op.credit && !op.force then op1 == Evicting(op.cl, op.objs, true)
                     else op1 == Releasing(op.cl, op.objs, Finished))
            && (op.Releasing? && op1.Idle? ==> op.todo == [] && op.after == Finished)
  {
    hide Run, Inv, Enabled, OpOK, LocalsOK, Configured, NextIdle, NextReleasing, NextRemoving, NextPopulating, NextRefilling,
      NextFetching, NextShrinking, Moved;
    var ch := StepFacts(g, states, k, t);
    var s, op := states[k], states[k].threads[t];
    InsertSane(g, s, t, ch);
    if op.Releasing? { ReleasingEnds(g, s, t); }
  }

  /** A thread that looks for a victim may get to any other class: whichever the
      counter names, if the unlocked look at it does not put the thread off. */
  lemma VictimPossible(g: Config, states: seq<State>, k: nat, t: nat, v: nat) returns (s1: State)
    requires Configured(g) && Run(g, states) && k < |states| && t < |states[k].threads|
    requires states[k].threads[t].Evicting? && v < |g| && v != states[k].threads[t].cl
    ensures var op := states[k].threads[t];
            StepBy(g, states[k], t, s1) && t < |s1.threads| && s1.threads[t] == WantVictim(op.cl, op.objs, v, op.force)
  {
    hide Run, Inv, Configured;
    RunKeeps(g, states, k);
    InvSize(g, states[k]);
    s1 := Next(g, states[k], t, Victim(v, true));
    assert Enabled(g, states[k], t, Victim(v, true));
  }

  lemma InsertSane(g: Config, s: State, t: nat, ch: Choice)
    requires Configured(g) && Inv(g, InitialSlots(g), s) && t < |s.threads| && |s.central| == |g| && Enabled(g, s, t, ch)
    ensures HomeOf(s.threads[t]) < |g| && TodoOf(s.threads[t]) < |g|
    ensures s.central[HomeOf(s.threads[t])].cacheSize <= s.central[HomeOf(s.threads[t])].maxCacheSize
    ensures s.threads[t].Evicting? ==> ch.Victim?
  {
    hide Rest, Capacity;
    StepOps(g, s, t);
    SaneAt(g, s.central, HomeOf(s.threads[t]));
    CacheBounds(g[HomeOf(s.threads[t])], s.central[HomeOf(s.threads[t])]);
  }

  lemma ReleasingEnds(g: Config, s: State, t: nat)
    requires |s.central| == |g| && t < |s.threads| && s.threads[t].Releasing? && s.threads[t].l < |g|
    ensures var s1 := NextReleasing(g, s, t);
            && |s1.central| == |g| && |s1.threads| == |s.threads|
            && (s1.threads[t].Idle? ==> s.threads[t].todo == [] && s.threads[t].after == Finished)
  {
    hide Carved, ReleasedObject, ReleasedSpan, Moved;
  }

  /** In every run, ShrinkCache takes exactly one slot from its victim, if that has
      any and, unless forced, one that is free; a chain in the way goes back to its
      spans first. The slot is then in the thread's hands. */
  lemma SlotWon(g: Config, states: seq<State>, k: nat, t: nat)
    requires Configured(g) && OneStep(g, states, k, t) && states[k].threads[t].Shrinking?
    ensures var s, s1, op, op1 := states[k], states[k + 1], states[k].threads[t], states[k + 1].threads[t];
            && op.victim < |g| == |s.central| == |s1.central|
            && var c, c1 := s.central[op.victim], s1.central[op.victim];
               if c.cacheSize == 0 || (|c.slots| == c.cacheSize && !op.force) then
                 c1 == c && op1 == WantHome(op.cl, op.objs, op.force, false)
               else
                 && c1.cacheSize == c.cacheSize - 1 && Credit(op1) == 1
                 && (if |c.slots| == c.cacheSize then
                       op1.Releasing? && c.slots == c1.slots + [op1.todo] && op1 == Releasing(op.victim, op1.todo, BackHome(op.cl, op.objs))
                     else c1.slots == c.slots && op1 == WantHome(op.cl, op.objs, op.force, true))
  {
    hide Run, Inv, Enabled, OpOK, LocalsOK, Configured, Moved;
    var ch := StepFacts(g, states, k, t);
    VictimSane(g, states[k], t);
    ShrinkingEnds(g, states[k], t);
  }

  lemma VictimSane(g: Config, s: State, t: nat)
    requires Configured(g) && Inv(g, InitialSlots(g), s) && t < |s.threads| && |s.central| == |g| && s.threads[t].Shrinking?
    ensures s.threads[t].victim < |g|
    ensures var c := s.central[s.threads[t].victim]; 0 <= |c.slots| <= c.cacheSize
  {
    hide Rest, Capacity;
    StepOps(g, s, t);
    SaneAt(g, s.central, s.threads[t].victim);
    CacheBounds(g[s.threads[t].victim], s.central[s.threads[t].victim]);
  }

  lemma ShrinkingEnds(g: Config, s: State, t: nat)
    requires |s.central| == |g| && t < |s.threads| && s.threads[t].Shrinking? && s.threads[t].victim < |g|
    requires var c := s.central[s.threads[t].victim]; 0 <= |c.slots| <= c.cacheSize
    ensures var s1, op := NextShrinking(g, s, t), s.threads[t];
            && |s1.central| == |g| && |s1.threads| == |s.threads|
            && var c, c1, op1 := s.central[op.victim], s1.central[op.victim], s1.threads[t];
               if c.cacheSize == 0 || (|c.slots| == c.cacheSize && !op.force) then
                 c1 == c && op1 == WantHome(op.cl, op.objs, op.force, false)
               else
                 && c1.cacheSize == c.cacheSize - 1 && Credit(op1) == 1
                 && (if |c.slots| == c.cacheSize then
                       op1.Releasing? && c.slots == c1.slots + [op1.todo] &&
                       op1 == Releasing(op.victim, op1.todo, BackHome(op.cl, op.objs))
                     else c1.slots == c.slots && op1 == WantHome(op.cl, op.objs, op.force, true))
  {
    hide Moved;
  }
}
