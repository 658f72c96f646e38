/** The queue of freed blocks of debugallocation.cc: a ring, and the threads
    that push on it and free what falls off its end. */
module FreeQueues {
  import opened Sequences

  const QUEUE_SIZE: nat := 1024
  const BATCH: nat := 4

  // ----- the ring

  /** The entries from `back` up to `front`, around the end of the array. */
  ghost function RingContents<T>(q: seq<T>, back: nat, front: nat): seq<T>
    requires |q| == QUEUE_SIZE && back < QUEUE_SIZE && front < QUEUE_SIZE
  {
    if back <= front then q[back..front] else q[back..] + q[..front]
  }

  class FreeQueue<T(0)> {
    const q: array<T>
    var front: nat
    var back: nat

    ghost predicate Valid()
      reads this, q
    {
      q.Length == QUEUE_SIZE && front < QUEUE_SIZE && back < QUEUE_SIZE
    }

    ghost function Contents(): seq<T>
      reads this, q
      requires Valid()
    {
      RingContents(q[..], back, front)
    }

    constructor ()
      ensures Valid() && Contents() == [] && fresh(q)
    {
      q := new T[QUEUE_SIZE];
      front, back := 0, 0;
    }

    method Full() returns (full: bool)
      requires Valid()
      ensures full <==> |Contents()| == QUEUE_SIZE - 1
    {
      full := (front + 1) % QUEUE_SIZE == back;
    }

    method Push(block: T)
      requires Valid() && |Contents()| < QUEUE_SIZE - 1
      modifies this, q
      ensures Valid() && Contents() == old(Contents()) + [block]
    {
      ghost var s := q[..];
      q[front] := block;
      PushedRing(s, back, front, block);
      front := (front + 1) % QUEUE_SIZE;
    }

    method Pop() returns (ret: T)
      requires Valid() && Contents() != []
      modifies this
      ensures Valid() && old(Contents()) == [ret] + Contents()
    {
      ret := q[back];
      back := (back + 1) % QUEUE_SIZE;
    }

    method Size() returns (n: nat)
      requires Valid()
      ensures n == |Contents()|
    {
      n := (front - back + QUEUE_SIZE) % QUEUE_SIZE;
    }
  }

  lemma PushedRing<T>(s: seq<T>, back: nat, front: nat, x: T)
    requires |s| == QUEUE_SIZE && back < QUEUE_SIZE && front < QUEUE_SIZE && |RingContents(s, back, front)| < QUEUE_SIZE - 1
    ensures RingContents(s[front := x], back, (front + 1) % QUEUE_SIZE) == RingContents(s, back, front) + [x]
  {
    var s1 := s[front := x];
    if back <= front {
      assert s1[back..front] == s[back..front];
      assert s1[back..front + 1] == s1[back..front] + [x];
      assert front + 1 == QUEUE_SIZE ==> s1[back..] == s1[back..front + 1];
    } else {
      assert s1[back..] == s[back..] && s1[..front] == s[..front];
      assert s1[..front + 1] == s1[..front] + [x];
    }
  }

  // ----- the threads

  /** A pushed block, known by the number of its push. */
  type Ticket = nat

  /** Where a thread is in ProcessFreeQueue; `max` is its size limit. */
  datatype Op =
    | Idle
    | WantPush(block: int, size: nat, max: nat)    // block 0 is NULL
    | Pushing(block: int, size: nat, max: nat)
    | Looping(batch: seq<Ticket>, max: nat)
    | Freeing(batch: seq<Ticket>, max: nat, again: bool)
    | WantMore(max: nat)

  datatype Place = Queued | InBatch(t: nat) | Freed

  /** `costs` has the cost of each push, `pops` and `frees` record the order in
      which entries left the queue and blocks were freed. */
  datatype State = State(queue: seq<Ticket>, total: int, holder: int, threads: seq<Op>,
                         costs: seq<nat>, pops: seq<Ticket>, frees: seq<Ticket>, place: seq<Place>)

  const NOBODY: int := -1

  /** What a thread does next: a new call, or the next step of the one it is in. */
  datatype Choice = Call(block: int, size: nat, max: nat) | Go

  predicate Full(s: State) { |s.queue| == QUEUE_SIZE - 1 }

  predicate Enabled(s: State, t: nat, ch: Choice) {
    && t < |s.threads|
    && (s.threads[t].Idle? <==> ch.Call?)
    && (s.threads[t].WantPush? || s.threads[t].WantMore? ==> s.holder == NOBODY)
  }

  function Put(s: State, t: nat, op: Op): State
    requires t < |s.threads|
  {
    s.(threads := s.threads[t := op])
  }

  /** One step; `entrySize` is the size of a queue entry. */
  function Next(entrySize: nat, s: State, t: nat, ch: Choice): State
    requires t < |s.threads|
  {
    match s.threads[t]
    case Idle => if ch.Call? then Put(s, t, WantPush(ch.block, ch.size, ch.max)) else s
    case WantPush(block, size, max) => Put(s, t, Pushing(block, size, max)).(holder := t)
    case Pushing(block, size, max) =>
      if block == 0 then Put(s, t, Looping([], max))
      else
        Put(s, t, Looping([], max)).(queue := s.queue + [|s.costs|], total := s.total + size + entrySize,
                                     costs := s.costs + [size + entrySize], place := s.place + [Queued])
    case Looping(batch, max) =>
      if (s.total > max || Full(s)) && s.queue != [] && s.queue[0] < |s.costs| && s.queue[0] < |s.place| then
        var i := s.queue[0];
        var s1 := s.(queue := s.queue[1..], total := s.total - s.costs[i], pops := s.pops + [i], place := s.place[i := InBatch(t)]);
        if |batch| + 1 == BATCH then Put(s1, t, Freeing(batch + [i], max, true)).(holder := NOBODY)
        else Put(s1, t, Looping(batch + [i], max))
      else Put(s, t, Freeing(batch, max, false)).(holder := NOBODY)
    case Freeing(batch, max, again) =>
      if batch == [] then Put(s, t, if again then WantMore(max) else Idle)
      else if batch[0] < |s.place| then
        Put(s, t, Freeing(batch[1..], max, again)).(frees := s.frees + [batch[0]], place := s.place[batch[0] := Freed])
      else s
    case WantMore(max) => Put(s, t, Looping([], max)).(holder := t)
  }

  // ----- the invariant

  function Batch(op: Op): seq<Ticket> {
    if op.Looping? || op.Freeing? then op.batch else []
  }

  predicate Holds(op: Op) { op.Pushing? || op.Looping? }

  function CostOf(queue: seq<Ticket>, costs: seq<nat>): int {
    if queue == [] then 0
    else (if queue[0] < |costs| then costs[queue[0]] else 0) + CostOf(queue[1..], costs)
  }

  ghost predicate LockOK(s: State) {
    && (s.holder == NOBODY || 0 <= s.holder < |s.threads|)
    && forall t | 0 <= t < |s.threads| :: Holds(s.threads[t]) <==> s.holder == t
  }

  /** Only a thread that has just pushed, and holds the lock, can find it full. */
  ghost predicate Roomy(s: State) {
    |s.queue| <= QUEUE_SIZE - 1 && (Full(s) ==> exists t :: 0 <= t < |s.threads| && JustPushed(s.threads[t]))
  }

  ghost predicate JustPushed(op: Op) { op.Looping? && op.batch == [] }

  /** Entries leave the queue in the order in which they were pushed. */
  ghost predicate Fifo(s: State) {
    && |s.pops + s.queue| == |s.costs| == |s.place|
    && forall i | 0 <= i < |s.costs| :: (s.pops + s.queue)[i] == i
  }

  /** Each pushed block is queued, in the batch of one thread, or freed. */
  ghost predicate PlacedAt(s: State, i: Ticket)
    requires i < |s.place|
  {
    && (s.place[i].Queued? <==> i in s.queue)
    && (forall t | 0 <= t < |s.threads| :: i in Batch(s.threads[t]) <==> s.place[i] == InBatch(t))
    && (s.place[i].InBatch? ==> s.place[i].t < |s.threads|)
    && (s.place[i].Freed? <==> i in s.frees)
  }

  ghost predicate Placed(s: State) {
    && (forall i | 0 <= i < |s.place| :: PlacedAt(s, i))
    && NoDup(s.frees) && (forall i | i in s.frees :: i < |s.place|)
    && (forall t | 0 <= t < |s.threads| :: BatchOK(s.threads[t], |s.place|))
  }

  ghost predicate BatchOK(op: Op, n: nat) {
    && NoDup(Batch(op)) && (forall i | i in Batch(op) :: i < n)
    && (op.Looping? ==> |op.batch| < BATCH) && |Batch(op)| <= BATCH
  }

  ghost predicate Inv(s: State) {
    LockOK(s) && Roomy(s) && Fifo(s) && Placed(s) && s.total == CostOf(s.queue, s.costs)
  }

  // ----- proofs

  lemma {:induction false} CostAppend(queue: seq<Ticket>, costs: seq<nat>, c: nat)
    requires forall i | i in queue :: i < |costs|
    ensures CostOf(queue, costs + [c]) == CostOf(queue, costs)
    ensures CostOf(queue + [|costs|], costs + [c]) == CostOf(queue, costs) + c
  {
    if queue == [] {
      assert (queue + [|costs|])[1..] == [];
    } else {
      assert queue[0] in queue && forall i | i in queue[1..] :: i in queue;
      CostAppend(queue[1..], costs, c);
      assert (queue + [|costs|])[1..] == queue[1..] + [|costs|];
    }
  }

  lemma {:induction false} CostPositive(queue: seq<Ticket>, costs: seq<nat>)
    ensures CostOf(queue, costs) >= 0
  {
    if queue != [] {
      CostPositive(queue[1..], costs);
    }
  }

  lemma QueueTickets(s: State)
    requires Fifo(s)
    ensures NoDup(s.queue) && forall k | 0 <= k < |s.queue| :: s.queue[k] == |s.pops| + k && s.queue[k] < |s.costs|
  {
    forall k | 0 <= k < |s.queue| ensures s.queue[k] == |s.pops| + k {
      assert (s.pops + s.queue)[|s.pops| + k] == s.queue[k];
    }
  }

  lemma PushStep(entrySize: nat, s: State, t: nat)
    requires Inv(s) && t < |s.threads| && s.threads[t].Pushing?
    ensures !Full(s) && Inv(Next(entrySize, s, t, Go))
  {
    var s1 := Next(entrySize, s, t, Go);
    QueueTickets(s);
    assert forall u | 0 <= u < |s.threads| && JustPushed(s.threads[u]) :: Holds(s.threads[u]) && s.holder == u;
    assert Holds(s.threads[t]) && JustPushed(s1.threads[t]);
    if s.threads[t].block != 0 {
      CostAppend(s.queue, s.costs, s.threads[t].size + entrySize);
      PushPlaced(entrySize, s, t);
    } else {
      OpChanged(s, s1, t);
    }
  }

  lemma PushPlaced(entrySize: nat, s: State, t: nat)
    requires Fifo(s) && Placed(s) && t < |s.threads| && s.threads[t].Pushing? && s.threads[t].block != 0
    ensures Fifo(Next(entrySize, s, t, Go)) && Placed(Next(entrySize, s, t, Go))
  {
    var s1, n := Next(entrySize, s, t, Go), |s.place|;
    assert s1.pops + s1.queue == (s.pops + s.queue) + [n];
    QueueTickets(s);
    forall i | 0 <= i < |s1.place| ensures PlacedAt(s1, i) {
      if i < n { assert PlacedAt(s, i); }
      forall u | 0 <= u < |s1.threads| ensures i in Batch(s1.threads[u]) <==> s1.place[i] == InBatch(u) {
        assert BatchOK(s.threads[u], n);
      }
    }
    forall u | 0 <= u < |s1.threads| ensures BatchOK(s1.threads[u], |s1.place|) {
      assert BatchOK(s.threads[u], n);
    }
  }

  /** A step that changes no batch and no place. */
  lemma OpChanged(s: State, s1: State, t: nat)
    requires Fifo(s) && Placed(s) && t < |s.threads|
    requires |s1.threads| == |s.threads| && s1 == s.(threads := s.threads[t := s1.threads[t]], holder := s1.holder)
    requires Batch(s1.threads[t]) == Batch(s.threads[t])
    requires BatchOK(s1.threads[t], |s.place|)
    ensures Fifo(s1) && Placed(s1)
  {
    forall i | 0 <= i < |s1.place| ensures PlacedAt(s1, i) {
      assert PlacedAt(s, i);
    }
  }

  /** Pop is never called on an empty queue, and the batch has room. */
  lemma PopStep(entrySize: nat, s: State, t: nat)
    requires Inv(s) && t < |s.threads| && s.threads[t].Looping? && (s.total > s.threads[t].max || Full(s))
    ensures s.queue != [] && |s.threads[t].batch| < BATCH && Inv(Next(entrySize, s, t, Go))
  {
    QueueTickets(s);
    assert BatchOK(s.threads[t], |s.place|);
    var s1, i := Next(entrySize, s, t, Go), s.queue[0];
    assert s1.pops + s1.queue == s.pops + s.queue;
    PopPlaced(entrySize, s, t);
  }

  lemma PopPlaced(entrySize: nat, s: State, t: nat)
    requires Fifo(s) && Placed(s) && t < |s.threads| && s.threads[t].Looping? && (s.total > s.threads[t].max || Full(s))
    requires s.queue != []
    ensures Placed(Next(entrySize, s, t, Go))
  {
    QueueTickets(s);
    var s1, i, n := Next(entrySize, s, t, Go), s.queue[0], |s.place|;
    assert BatchOK(s.threads[t], n) && PlacedAt(s, i);
    assert Batch(s1.threads[t]) == Batch(s.threads[t]) + [i];
    forall k | 0 <= k < n ensures PlacedAt(s1, k) {
      assert PlacedAt(s, k);
      assert k in s.queue <==> k == i || k in s1.queue;
    }
    forall u | 0 <= u < |s1.threads| ensures BatchOK(s1.threads[u], n) {
      assert BatchOK(s.threads[u], n);
    }
  }

  lemma FreeStep(entrySize: nat, s: State, t: nat)
    requires Inv(s) && t < |s.threads| && s.threads[t].Freeing?
    ensures Inv(Next(entrySize, s, t, Go))
  {
    var s1, n := Next(entrySize, s, t, Go), |s.place|;
    assert BatchOK(s.threads[t], n);
    if s.threads[t].batch == [] {
      OpChanged(s, s1, t);
    } else {
      FreePlaced(entrySize, s, t);
    }
    StillRoomy(s, s1, t);
  }

  lemma StillRoomy(s: State, s1: State, t: nat)
    requires Roomy(s) && t < |s.threads| && |s1.threads| == |s.threads| && !JustPushed(s.threads[t])
    requires s1.queue == s.queue && forall u | 0 <= u < |s.threads| && u != t :: s1.threads[u] == s.threads[u]
    ensures Roomy(s1)
  {
    if Full(s) {
      var u :| 0 <= u < |s.threads| && JustPushed(s.threads[u]);
      assert JustPushed(s1.threads[u]);
    }
  }

  lemma FreePlaced(entrySize: nat, s: State, t: nat)
    requires Fifo(s) && Placed(s) && t < |s.threads| && s.threads[t].Freeing? && s.threads[t].batch != []
    ensures Fifo(Next(entrySize, s, t, Go)) && Placed(Next(entrySize, s, t, Go))
  {
    var s1, n := Next(entrySize, s, t, Go), |s.place|;
    assert BatchOK(s.threads[t], n);
    var batch, i := s.threads[t].batch, s.threads[t].batch[0];
    assert i in Batch(s.threads[t]) && PlacedAt(s, i);
    forall k | 0 <= k < n ensures PlacedAt(s1, k) {
      assert PlacedAt(s, k);
      assert k in batch <==> k == i || k in batch[1..];
      assert k == i ==> k !in batch[1..];
    }
    assert forall k | k in batch[1..] :: k in batch;
    forall u | 0 <= u < |s1.threads| ensures BatchOK(s1.threads[u], n) {
      assert BatchOK(s.threads[u], n);
    }
  }

  lemma StepKeeps(entrySize: nat, s: State, t: nat, ch: Choice)
    requires Inv(s) && Enabled(s, t, ch)
    ensures Inv(Next(entrySize, s, t, ch))
  {
    var s1 := Next(entrySize, s, t, ch);
    match s.threads[t]
    case Pushing(_, _, _) => PushStep(entrySize, s, t);
    case Freeing(_, _, _) => FreeStep(entrySize, s, t);
    case Looping(batch, max) =>
      if s.total > max || Full(s) {
        PopStep(entrySize, s, t);
      } else {
        assert BatchOK(s.threads[t], |s.place|);
        OpChanged(s, s1, t);
      }
    case _ =>
      OpChanged(s, s1, t);
      StillRoomy(s, s1, t);
  }

  function Start(n: nat): State {
    State([], 0, NOBODY, seq(n, _ => Idle), [], [], [], [])
  }

  ghost predicate Run(entrySize: nat, states: seq<State>) {
    && states != [] && (exists n: nat :: states[0] == Start(n))
    && forall k, m | 0 <= k && m == k + 1 < |states| :: Steps(entrySize, states[k], states[m])
  }

  ghost predicate Steps(entrySize: nat, s: State, s1: State) {
    exists t, ch :: Enabled(s, t, ch) && s1 == Next(entrySize, s, t, ch)
  }

  lemma {:induction false} RunKeeps(entrySize: nat, states: seq<State>, k: nat)
    requires Run(entrySize, states) && k < |states|
    ensures Inv(states[k])
  {
    hide Inv, Next;
    if k == 0 {
      StartInv(states[0]);
    } else {
      RunKeeps(entrySize, states, k - 1);
      assert Steps(entrySize, states[k - 1], states[k]);
      var t, ch :| Enabled(states[k - 1], t, ch) && states[k] == Next(entrySize, states[k - 1], t, ch);
      StepKeeps(entrySize, states[k - 1], t, ch);
    }
  }

  lemma StartInv(s: State)
    requires exists n: nat :: s == Start(n)
    ensures Inv(s)
  {
  }

  /** Whenever the lock is free the queue has room and its size is right, removal
      is first in first out, and no block is freed twice. */
  lemma QueueKept(entrySize: nat, states: seq<State>, k: nat)
    requires Run(entrySize, states) && k < |states|
    ensures states[k].holder == NOBODY ==> !Full(states[k])
    ensures states[k].total == CostOf(states[k].queue, states[k].costs) >= 0
    ensures states[k].pops + states[k].queue == seq(|states[k].costs|, i => i)
    ensures NoDup(states[k].frees) && Placed(states[k])
  {
    hide Run;
    RunKeeps(entrySize, states, k);
    var s := states[k];
    CostPositive(s.queue, s.costs);
    assert forall u | 0 <= u < |s.threads| && JustPushed(s.threads[u]) :: Holds(s.threads[u]);
  }

  /** None of the checks of ProcessFreeQueue, Push and Pop can fail. */
  lemma ChecksPass(entrySize: nat, states: seq<State>, k: nat, t: nat)
    requires Run(entrySize, states) && k < |states| && t < |states[k].threads|
    ensures states[k].threads[t].Pushing? ==> !Full(states[k])
    ensures states[k].threads[t].Looping? && (states[k].total > states[k].threads[t].max || Full(states[k])) ==>
              states[k].queue != [] && |states[k].threads[t].batch| < BATCH
    ensures states[k].total >= 0
  {
    hide Run, Next, Inv;
    RunKeeps(entrySize, states, k);
    var s := states[k];
    QueueKept(entrySize, states, k);
    if s.threads[t].Pushing? { PushStep(entrySize, s, t); }
    if s.threads[t].Looping? && (s.total > s.threads[t].max || Full(s)) { PopStep(entrySize, s, t); }
  }

  // ----- what a call does

  ghost predicate StepBy(entrySize: nat, s: State, t: nat, s1: State) {
    exists ch :: Enabled(s, t, ch) && s1 == Next(entrySize, s, t, ch)
  }

  /** In every run, an entry is popped if and only if a thread in the loop finds the
      queue above its limit or full; it leaves the loop for good only with the queue
      within the limit, and with room. */
  lemma PoppedWhen(entrySize: nat, states: seq<State>, k: nat, t: nat)
    requires Run(entrySize, states) && k + 1 < |states| && t < |states[k].threads|
    requires StepBy(entrySize, states[k], t, states[k + 1])
    ensures var s, s1, op := states[k], states[k + 1], states[k].threads[t];
            && |s1.threads| == |s.threads|
            && (if op.Looping? && (s.total > op.max || Full(s)) then
                  s.queue != [] && s1.pops == s.pops + [s.queue[0]] && s1.queue == s.queue[1..]
                else s1.pops == s.pops && s.queue <= s1.queue)
            && (op.Looping? && s1.threads[t].Freeing? && !s1.threads[t].again ==>
                  s1.threads[t].max == op.max && s1.total <= op.max && !Full(s1))
  {
    hide Run, Inv;
    RunKeeps(entrySize, states, k);
    ChecksPass(entrySize, states, k, t);
    QueueTickets(states[k]) by { FifoNow(states[k]); }
    FifoNow(states[k]);
  }

  lemma FifoNow(s: State)
    requires Inv(s)
    ensures Fifo(s)
  {
  }

  /** In every run, a block that is handed in becomes the last entry, with its cost;
      nothing else is pushed. What a thread has popped it frees, in the same order,
      and a call ends only when nothing is left to free. */
  lemma PushedAndFreed(entrySize: nat, states: seq<State>, k: nat, t: nat)
    requires Run(entrySize, states) && k + 1 < |states| && t < |states[k].threads|
    requires StepBy(entrySize, states[k], t, states[k + 1])
    ensures var s, s1, op := states[k], states[k + 1], states[k].threads[t];
            && |s1.threads| == |s.threads|
            && (if op.Pushing? && op.block != 0 then
                  s1.queue == s.queue + [|s.costs|] && s1.costs == s.costs + [op.size + entrySize]
                else s1.costs == s.costs)
            && (if op.Freeing? && op.batch != [] then
                  s1.frees == s.frees + [op.batch[0]] && s1.threads[t] == Freeing(op.batch[1..], op.max, op.again)
                else s1.frees == s.frees)
            && (!op.Idle? && s1.threads[t].Idle? ==> op.Freeing? && op.batch == [] && !op.again)
  {
    hide Run, Inv;
    RunKeeps(entrySize, states, k);
    BatchNow(states[k], t);
  }

  lemma BatchNow(s: State, t: nat)
    requires Inv(s) && t < |s.threads|
    ensures s.threads[t].Freeing? && s.threads[t].batch != [] ==> s.threads[t].batch[0] < |s.place|
  {
    assert BatchOK(s.threads[t], |s.place|);
    if s.threads[t].Freeing? && s.threads[t].batch != [] { assert s.threads[t].batch[0] in Batch(s.threads[t]); }
  }

  /** In every run, before a call ends there is a time at which this thread has left
      the queue within its limit, and not full. */
  lemma {:induction false} CallMeetsLimit(entrySize: nat, states: seq<State>, k: nat, t: nat)
    requires Run(entrySize, states) && k < |states| && t < |states[k].threads|
    requires states[k].threads[t].Freeing? && !states[k].threads[t].again
    ensures exists j :: 0 < j <= k && LeftAt(states, j, k, t, states[k].threads[t].max)
    decreases k
  {
    hide Inv, Next;
    if k == 0 {
      FirstIdle(entrySize, states, t);
    } else {
      assert Steps(entrySize, states[k - 1], states[k]);
      var u, ch :| Enabled(states[k - 1], u, ch) && states[k] == Next(entrySize, states[k - 1], u, ch);
      OneMoves(entrySize, states[k - 1], u, ch);
      assert StepBy(entrySize, states[k - 1], u, states[k]);
      if states[k - 1].threads[t].Freeing? && !states[k - 1].threads[t].again {
        CallMeetsLimit(entrySize, states, k - 1, t);
        SameLimit(entrySize, states[k - 1], u, ch, t);
        var j :| 0 < j <= k - 1 && LeftAt(states, j, k - 1, t, states[k - 1].threads[t].max);
        assert LeftAt(states, j, k, t, states[k].threads[t].max);
      } else {
        assert u == t && states[k - 1].threads[t].Looping? by { IntoFreeing(entrySize, states[k - 1], u, ch, t); }
        PoppedWhen(entrySize, states, k - 1, t);
        assert LeftAt(states, k, k, t, states[k].threads[t].max);
      }
    }
  }

  /** Thread `t` left the loop in step `j`, and has been freeing its batch up to `k`. */
  ghost predicate LeftAt(states: seq<State>, j: int, k: int, t: nat, max: nat) {
    && 0 < j <= k < |states| && states[j].total <= max && !Full(states[j])
    && t < |states[j - 1].threads| && states[j - 1].threads[t].Looping?
    && forall i | j <= i <= k :: t < |states[i].threads| && states[i].threads[t].Freeing? && !states[i].threads[t].again
  }

  lemma FirstIdle(entrySize: nat, states: seq<State>, t: nat)
    requires Run(entrySize, states) && t < |states[0].threads|
    ensures states[0].threads[t].Idle?
  {
  }

  lemma OneMoves(entrySize: nat, s: State, u: nat, ch: Choice)
    requires u < |s.threads|
    ensures |Next(entrySize, s, u, ch).threads| == |s.threads|
    ensures forall t | 0 <= t < |s.threads| && t != u :: Next(entrySize, s, u, ch).threads[t] == s.threads[t]
  {
  }

  lemma SameLimit(entrySize: nat, s: State, u: nat, ch: Choice, t: nat)
    requires u < |s.threads| && t < |s.threads| && s.threads[t].Freeing? && !s.threads[t].again
    ensures var op := Next(entrySize, s, u, ch).threads[t]; op.Freeing? ==> op.max == s.threads[t].max
  {
  }

  lemma IntoFreeing(entrySize: nat, s: State, u: nat, ch: Choice, t: nat)
    requires u < |s.threads| && t < |s.threads| && !(s.threads[t].Freeing? && !s.threads[t].again)
    requires var op := Next(entrySize, s, u, ch).threads[t]; op.Freeing? && !op.again
    ensures u == t && s.threads[t].Looping?
  {
  }
}
