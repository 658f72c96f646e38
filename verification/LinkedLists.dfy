/** Singly linked chains in explicit memory, as linked_list.h threads them through
    the first word of free objects and addressmap-inl.h through its entries. */
module LinkedLists {
  import opened Sequences

  type Ptr = nat

  const NULL: Ptr := 0

  /** Following `next` from `head` visits `xs` and then reaches NULL. */
  ghost predicate Chain(next: map<Ptr, Ptr>, head: Ptr, xs: seq<Ptr>) {
    && head == (if xs == [] then NULL else xs[0])
    && forall i | 0 <= i < |xs| :: Linked(next, xs, i)
  }

  ghost predicate Linked(next: map<Ptr, Ptr>, xs: seq<Ptr>, i: nat)
    requires i < |xs|
  {
    xs[i] != NULL && xs[i] in next && next[xs[i]] == (if i + 1 < |xs| then xs[i + 1] else NULL)
  }

  /** A chain that ends cannot visit a node twice. */
  lemma ChainDistinct(next: map<Ptr, Ptr>, head: Ptr, xs: seq<Ptr>)
    requires Chain(next, head, xs)
    ensures NoDup(xs)
  {
    forall i, j | 0 <= i < j < |xs| ensures xs[i] != xs[j] {
      NodesDiffer(next, xs, i, j);
    }
  }

  /** Equal nodes would have equal successors, all the way to the end. */
  lemma {:induction false} NodesDiffer(next: map<Ptr, Ptr>, xs: seq<Ptr>, i: nat, j: nat)
    requires forall k | 0 <= k < |xs| :: Linked(next, xs, k)
    requires i < j < |xs|
    ensures xs[i] != xs[j]
    decreases |xs| - j
  {
    assert Linked(next, xs, i) && Linked(next, xs, i + 1) && Linked(next, xs, j);
    if j + 1 < |xs| {
      NodesDiffer(next, xs, i + 1, j + 1);
    }
  }

  lemma ChainMembers(next: map<Ptr, Ptr>, head: Ptr, xs: seq<Ptr>)
    requires Chain(next, head, xs)
    ensures forall x | x in xs :: x != NULL && x in next
  {
    forall x | x in xs ensures x != NULL && x in next {
      var i :| 0 <= i < |xs| && xs[i] == x;
      assert Linked(next, xs, i);
    }
  }

  lemma ChainTail(next: map<Ptr, Ptr>, head: Ptr, xs: seq<Ptr>)
    requires Chain(next, head, xs) && xs != []
    ensures head != NULL && head in next && Chain(next, next[head], xs[1..])
  {
    assert Linked(next, xs, 0);
    forall i | 0 <= i < |xs[1..]| ensures Linked(next, xs[1..], i) {
      assert Linked(next, xs, i + 1);
    }
  }

  lemma ChainCons(next: map<Ptr, Ptr>, head: Ptr, xs: seq<Ptr>, x: Ptr)
    requires Chain(next, head, xs) && x != NULL && x !in xs
    ensures Chain(next[x := head], x, [x] + xs)
  {
    var n1, ys := next[x := head], [x] + xs;
    forall i | 0 <= i < |ys| ensures Linked(n1, ys, i) {
      if i > 0 { assert Linked(next, xs, i - 1); }
    }
  }

  /** A chain is not disturbed by writes to nodes that are not on it. */
  lemma ChainFrame(next: map<Ptr, Ptr>, next1: map<Ptr, Ptr>, head: Ptr, xs: seq<Ptr>)
    requires Chain(next, head, xs)
    requires forall x | x in xs :: x in next && x in next1 && next1[x] == next[x]
    ensures Chain(next1, head, xs)
  {
    forall i | 0 <= i < |xs| ensures Linked(next1, xs, i) {
      assert Linked(next, xs, i) && xs[i] in xs;
    }
  }

  /** Taking node `k` out, by redirecting the field that points to it. */
  lemma ChainCut(next: map<Ptr, Ptr>, head: Ptr, xs: seq<Ptr>, k: nat)
    requires Chain(next, head, xs) && k < |xs|
    ensures xs[k] in next
    ensures var after := next[xs[k]];
            var next1 := if k == 0 then next else next[xs[k - 1] := after];
            Chain(next1, if k == 0 then after else head, xs[..k] + xs[k + 1..])
  {
    ChainDistinct(next, head, xs);
    assert Linked(next, xs, k);
    var after := next[xs[k]];
    var next1 := if k == 0 then next else next[xs[k - 1] := after];
    var ys := xs[..k] + xs[k + 1..];
    forall i | 0 <= i < |ys| ensures Linked(next1, ys, i) {
      if i < k { assert Linked(next, xs, i); } else { assert Linked(next, xs, i + 1); }
    }
  }

  lemma ChainAppend(next: map<Ptr, Ptr>, start: Ptr, xs: seq<Ptr>, head: Ptr, ys: seq<Ptr>)
    requires Chain(next, start, xs) && xs != [] && Chain(next, head, ys)
    requires forall x | x in xs :: x !in ys
    ensures Chain(next[xs[|xs| - 1] := head], start, xs + ys)
  {
    ChainDistinct(next, start, xs);
    var end := xs[|xs| - 1];
    var next1 := next[end := head];
    forall i | 0 <= i < |xs + ys| ensures Linked(next1, xs + ys, i) {
      if i < |xs| { assert Linked(next, xs, i); } else { assert Linked(next, ys, i - |xs|) && ys[i - |xs|] in ys; }
    }
  }

  /** Ending a chain after its first `n` nodes leaves two chains. */
  lemma ChainSplit(next: map<Ptr, Ptr>, head: Ptr, xs: seq<Ptr>, n: nat)
    requires Chain(next, head, xs) && 0 < n <= |xs|
    ensures xs[n - 1] in next
    ensures Chain(next[xs[n - 1] := NULL], head, xs[..n]) && Chain(next[xs[n - 1] := NULL], next[xs[n - 1]], xs[n..])
  {
    ChainDistinct(next, head, xs);
    assert Linked(next, xs, n - 1);
    var next1 := next[xs[n - 1] := NULL];
    forall i | 0 <= i < n ensures Linked(next1, xs[..n], i) { assert Linked(next, xs, i); }
    forall i | 0 <= i < |xs| - n ensures Linked(next1, xs[n..], i) { assert Linked(next, xs, n + i); }
  }

  /** The memory that holds the links of free objects. */
  class Memory {
    var next: map<Ptr, Ptr>

    constructor ()
      ensures next == map[]
    {
      next := map[];
    }

    /** SLL_Push: `element` becomes the head of the list. */
    method Push(head: Ptr, element: Ptr, ghost xs: seq<Ptr>) returns (head1: Ptr)
      requires Chain(next, head, xs) && element != NULL && element !in xs
      modifies this
      ensures Chain(next, head1, [element] + xs)
      ensures forall x | x in old(next) && x != element :: x in next && next[x] == old(next[x])
    {
      ChainCons(next, head, xs, element);
      next := next[element := head];
      head1 := element;
    }

    /** SLL_Pop of a nonempty list. */
    method Pop(head: Ptr, ghost xs: seq<Ptr>) returns (result: Ptr, head1: Ptr)
      requires Chain(next, head, xs) && xs != []
      ensures result == xs[0] && Chain(next, head1, xs[1..])
    {
      ChainTail(next, head, xs);
      result, head1 := head, next[head];
    }

    /** SLL_PopRange: the first `n` nodes become a list of their own. */
    method PopRange(head: Ptr, n: nat, ghost xs: seq<Ptr>) returns (start: Ptr, end: Ptr, head1: Ptr)
      requires Chain(next, head, xs) && n <= |xs|
      modifies this
      ensures Chain(next, start, xs[..n]) && Chain(next, head1, xs[n..])
      ensures end == if n == 0 then NULL else xs[n - 1]
    {
      if n == 0 {
        assert xs[0..] == xs;
        return NULL, NULL, head;
      }
      var tmp := head;
      var i := 1;
      while i < n
        invariant 1 <= i <= n && tmp == xs[i - 1] && next == old(next)
      {
        assert Linked(next, xs, i - 1);
        tmp := next[tmp];
        i := i + 1;
      }
      ChainSplit(next, head, xs, n);
      start, end, head1 := head, tmp, next[tmp];
      next := next[tmp := NULL];
    }

    /** SLL_PushRange: a whole list goes in front of another. */
    method PushRange(head: Ptr, start: Ptr, end: Ptr, ghost xs: seq<Ptr>, ghost ys: seq<Ptr>) returns (head1: Ptr)
      requires Chain(next, start, xs) && Chain(next, head, ys) && forall x | x in xs :: x !in ys
      requires xs != [] ==> end == xs[|xs| - 1]
      modifies this
      ensures Chain(next, head1, xs + ys)
      ensures forall x | x in old(next) && (xs == [] || x != xs[|xs| - 1]) :: x in next && next[x] == old(next[x])
    {
      if start == NULL {
        assert xs != [] ==> Linked(next, xs, 0);
        assert xs + ys == ys;
        return head;
      }
      ChainAppend(next, start, xs, head, ys);
      next := next[end := head];
      head1 := start;
    }

    /** SLL_Size. */
    method Size(head: Ptr, ghost xs: seq<Ptr>) returns (count: nat)
      requires Chain(next, head, xs)
      ensures count == |xs|
    {
      count := 0;
      var p := head;
      assert xs != [] ==> Linked(next, xs, 0);
      while p != NULL
        invariant count <= |xs| && p == (if count < |xs| then xs[count] else NULL)
        invariant p == NULL <==> count == |xs|
        decreases |xs| - count
      {
        assert Linked(next, xs, count);
        assert count + 1 < |xs| ==> Linked(next, xs, count + 1);
        p := next[p];
        count := count + 1;
      }
    }
  }
}
