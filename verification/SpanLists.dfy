/** Circular doubly linked lists with dummy headers, as span.cc threads them
    through the `next` and `prev` fields of Span objects (span.cc:73-100).
    Memory is explicit: `next` and `prev` map a node to the node its field
    points to, and a node without an entry has a NULL field. */
module SpanLists {
  import opened Sequences

  /** The members of a list with one of them taken out. */
  function Without<T(==)>(xs: seq<T>, x: T): (ys: seq<T>)
    ensures NoDup(xs) ==> NoDup(ys) && x !in ys
    ensures forall y | y in ys :: y in xs
    ensures forall y | y in xs && y != x :: y in ys
    ensures x in xs ==> |ys| == |xs| - 1
  {
    if xs == [] then []
    else if xs[0] == x then (assert NoDup(xs) ==> forall j | 0 <= j < |xs[1..]| :: xs[1..][j] != xs[0]; xs[1..])
    else
      var ys := Without(xs[1..], x);
      assert NoDup(xs) ==> NoDup(xs[1..]) && xs[0] !in xs[1..];
      assert NoDup(ys) && xs[0] !in ys ==> NoDup([xs[0]] + ys);
      [xs[0]] + ys
  }

  lemma {:induction false} WithoutSplits<T>(xs: seq<T>, k: nat)
    requires k < |xs| && NoDup(xs)
    ensures Without(xs, xs[k]) == xs[..k] + xs[k + 1..]
  {
    if k > 0 {
      WithoutSplits(xs[1..], k - 1);
      assert xs[..k] == [xs[0]] + xs[1..][..k - 1];
    }
  }

  /** Following `next` from the header visits `xs` in order and returns to the
      header; following `prev` visits it backwards. */
  ghost predicate Ring<T>(next: map<T, T>, prev: map<T, T>, h: T, xs: seq<T>) {
    var c := [h] + xs + [h];
    forall i, j | 0 <= i && j == i + 1 < |c| :: Joined(next, prev, c[i], c[j])
  }

  ghost predicate Joined<T>(next: map<T, T>, prev: map<T, T>, x: T, y: T) {
    x in next && next[x] == y && y in prev && prev[y] == x
  }

  lemma RingAt<T>(next: map<T, T>, prev: map<T, T>, h: T, xs: seq<T>, i: nat)
    requires Ring(next, prev, h, xs) && i <= |xs|
    ensures Joined(next, prev, if i == 0 then h else xs[i - 1], if i == |xs| then h else xs[i])
  {
    var c := [h] + xs + [h];
    var j := i + 1;
    assert Joined(next, prev, c[i], c[j]);
  }

  /** `home` sends each linked node to the header of the one list it is on. */
  ghost predicate Homed<T>(lists: map<T, seq<T>>, home: map<T, T>) {
    && (forall h | h in lists :: h !in home && NoDup(lists[h]))
    && (forall h, x | h in lists && x in lists[h] :: x in home && home[x] == h)
    && (forall x | x in home :: home[x] in lists && x in lists[home[x]])
  }

  /** The links represent exactly `lists`. */
  ghost predicate Threaded<T>(next: map<T, T>, prev: map<T, T>, lists: map<T, seq<T>>, home: map<T, T>) {
    && Homed(lists, home)
    && (forall h | h in lists :: Ring(next, prev, h, lists[h]))
  }

  class Links<T(==)> {
    var next: map<T, T>
    var prev: map<T, T>
    ghost var lists: map<T, seq<T>>
    ghost var home: map<T, T>

    ghost predicate Valid()
      reads this
    {
      Threaded(next, prev, lists, home)
    }

    lemma Facts()
      requires Valid()
      ensures Homed(lists, home)
      ensures forall h | h in lists :: NoDup(lists[h])
    {
    }

    constructor ()
      ensures Valid() && lists == map[] && home == map[]
    {
      next, prev, lists, home := map[], map[], map[], map[];
    }

    method Init(h: T)
      requires Valid() && h !in home && h !in lists
      modifies this
      ensures Valid() && lists == old(lists)[h := []] && home == old(home)
    {
      next, prev := next[h := h], prev[h := h];
      OtherRings(old(next), old(prev), next, prev, lists, home, h, {h});
      lists := lists[h := []];
      EmptyRing(next, prev, h);
    }

    method IsEmpty(h: T) returns (b: bool)
      requires Valid() && h in lists
      ensures b <==> lists[h] == []
    {
      RingAt(next, prev, h, lists[h], 0);
      b := next[h] == h;
      assert lists[h] != [] ==> lists[h][0] in lists[h];
    }

    /** The first member, or the header itself when there is none. */
    method First(h: T) returns (x: T)
      requires Valid() && h in lists
      ensures x == if lists[h] == [] then h else lists[h][0]
    {
      RingAt(next, prev, h, lists[h], 0);
      x := next[h];
    }

    /** The last member, or the header itself when there is none. */
    method Last(h: T) returns (x: T)
      requires Valid() && h in lists
      ensures x == if lists[h] == [] then h else lists[h][|lists[h]| - 1]
    {
      RingAt(next, prev, h, lists[h], |lists[h]|);
      x := prev[h];
    }

    /** One step of a walk: from the header (i = 0) or from member i - 1. */
    method Step(x: T, ghost h: T, ghost i: nat) returns (y: T)
      requires Valid() && h in lists && i <= |lists[h]|
      requires x == if i == 0 then h else lists[h][i - 1]
      ensures y == if i == |lists[h]| then h else lists[h][i]
    {
      RingAt(next, prev, h, lists[h], i);
      y := next[x];
    }

    method Length(h: T) returns (n: nat)
      requires Valid() && h in lists
      ensures n == |lists[h]|
    {
      n := 0;
      var s := First(h);
      assert forall i | 0 <= i < |lists[h]| :: lists[h][i] in lists[h];
      while s != h
        invariant n <= |lists[h]|
        invariant s == if n == |lists[h]| then h else lists[h][n]
        invariant forall i | 0 <= i < |lists[h]| :: lists[h][i] != h
        decreases |lists[h]| - n
      {
        s := Step(s, h, n + 1);
        n := n + 1;
      }
    }

    method Prepend(h: T, x: T)
      requires Valid() && h in lists
      requires x !in lists && x !in home
      modifies this
      ensures Valid() && lists == old(lists)[h := [x] + old(lists)[h]]
      ensures home == old(home)[x := h]
    {
      hide Joined, Ring;
      ghost var xs := lists[h];
      RingAt(next, prev, h, xs, 0);
      assert xs != [] ==> xs[0] in xs;
      var first := next[h];
      next := next[x := first];
      prev := prev[x := h];
      prev := prev[first := x];
      next := next[h := x];
      PrependRing(old(next), old(prev), h, xs, x);
      lists := lists[h := [x] + xs];
      home := home[x := h];
      OtherRings(old(next), old(prev), next, prev, old(lists), old(home), h, {h, x, first});
    }

    method Remove(x: T)
      requires Valid() && x in home
      modifies this
      ensures Valid()
      ensures lists == old(lists)[old(home)[x] := Without(old(lists)[old(home)[x]], x)]
      ensures home == old(home) - {x}
    {
      RemoveThreads(next, prev, lists, home, x);
      var before, after := prev[x], next[x];
      next := next[before := after];
      prev := prev[after := before];
      next, prev := next - {x}, prev - {x};
      lists := lists[home[x] := Without(lists[home[x]], x)];
      home := home - {x};
    }
  }

  /** Rewriting the fields of nodes on list `h`, or on no list, leaves the
      other rings as they were. */
  lemma OtherRings<T>(n0: map<T, T>, p0: map<T, T>, n1: map<T, T>, p1: map<T, T>,
                      lists: map<T, seq<T>>, home: map<T, T>, h: T, touched: set<T>)
    requires Homed(lists, home) && h !in home
    requires forall k | k in lists :: Ring(n0, p0, k, lists[k])
    requires forall x | x in touched :: x == h || (x !in lists && (x in home ==> home[x] == h))
    requires forall x | x in n0 && x !in touched :: x in n1 && n1[x] == n0[x]
    requires forall x | x in p0 && x !in touched :: x in p1 && p1[x] == p0[x]
    ensures forall k | k in lists && k != h :: Ring(n1, p1, k, lists[k])
  {
    forall k | k in lists && k != h ensures Ring(n1, p1, k, lists[k]) {
      var c := [k] + lists[k] + [k];
      assert forall x | x in lists[k] :: home[x] == k && x !in touched;
      forall i, j | 0 <= i && j == i + 1 < |c| ensures Joined(n1, p1, c[i], c[j]) {
        assert Joined(n0, p0, c[i], c[j]);
        assert c[i] == k || c[i] in lists[k];
        assert c[j] == k || c[j] in lists[k];
      }
    }
  }

  lemma Place<T>(next: map<T, T>, prev: map<T, T>, h: T, xs: seq<T>, x: T) returns (k: nat)
    requires Ring(next, prev, h, xs) && x in xs
    ensures k < |xs| && xs[k] == x
    ensures x in next && x in prev
    ensures (prev[x] == h || prev[x] in xs) && (next[x] == h || next[x] in xs)
  {
    k :| 0 <= k < |xs| && xs[k] == x;
    RingAt(next, prev, h, xs, k);
    RingAt(next, prev, h, xs, k + 1);
  }

  lemma HomedWithout<T>(lists: map<T, seq<T>>, home: map<T, T>, x: T)
    requires Homed(lists, home) && x in home
    ensures Homed(lists[home[x] := Without(lists[home[x]], x)], home - {x})
  {
    var l1, m1 := lists[home[x] := Without(lists[home[x]], x)], home - {x};
    forall h, y | h in l1 && y in l1[h] ensures y in m1 && m1[y] == h {
      assert y in lists[h];
    }
  }

  lemma RemoveThreads<T>(next: map<T, T>, prev: map<T, T>, lists: map<T, seq<T>>, home: map<T, T>, x: T)
    requires Threaded(next, prev, lists, home) && x in home
    ensures x in next && x in prev
    ensures Threaded(next[prev[x] := next[x]] - {x}, prev[next[x] := prev[x]] - {x},
                     lists[home[x] := Without(lists[home[x]], x)], home - {x})
  {
    var h := home[x];
    var xs := lists[h];
    var k := Place(next, prev, h, xs, x);
    var before, after := prev[x], next[x];
    WithoutSplits(xs, k);
    RemoveRing(next, prev, h, xs, k);
    HomedWithout(lists, home, x);
    var n1, p1 := next[before := after] - {x}, prev[after := before] - {x};
    OtherRings(next, prev, n1, p1, lists, home, h, {h, x, before, after});
  }

  lemma EmptyRing<T>(next: map<T, T>, prev: map<T, T>, h: T)
    requires h in next && next[h] == h && h in prev && prev[h] == h
    ensures Ring(next, prev, h, [])
  {
  }

  lemma PrependRing<T>(next: map<T, T>, prev: map<T, T>, h: T, xs: seq<T>, x: T)
    requires Ring(next, prev, h, xs) && h in next
    requires x != h && x !in xs && h !in xs && NoDup(xs)
    ensures Ring(next[x := next[h]][h := x], prev[x := h][next[h] := x], h, [x] + xs)
  {
    var c, d := [h] + xs + [h], [h] + ([x] + xs) + [h];
    var n1, p1 := next[x := next[h]][h := x], prev[x := h][next[h] := x];
    RingAt(next, prev, h, xs, 0);
    assert forall i | 1 < i < |d| :: d[i] == c[i - 1] && (d[i] in xs || d[i] == h);
    forall i, j | 0 <= i && j == i + 1 < |d| ensures Joined(n1, p1, d[i], d[j]) {
      if i >= 2 {
        RingAt(next, prev, h, xs, i - 1);
        assert d[i] in xs && (i >= 2 ==> d[i] == xs[i - 2]);
        assert d[j] == if i - 1 == |xs| then h else xs[i - 1];
      }
    }
  }

  lemma RemoveRing<T>(next: map<T, T>, prev: map<T, T>, h: T, xs: seq<T>, k: nat)
    requires Ring(next, prev, h, xs) && k < |xs| && xs[k] in next && xs[k] in prev
    requires NoDup(xs) && h !in xs
    ensures Ring(next[prev[xs[k]] := next[xs[k]]] - {xs[k]}, prev[next[xs[k]] := prev[xs[k]]] - {xs[k]},
                 h, xs[..k] + xs[k + 1..])
  {
    var x := xs[k];
    var c, d := [h] + xs + [h], [h] + (xs[..k] + xs[k + 1..]) + [h];
    var n1, p1 := next[prev[x] := next[x]] - {x}, prev[next[x] := prev[x]] - {x};
    RingAt(next, prev, h, xs, k);
    RingAt(next, prev, h, xs, k + 1);
    forall i, j | 0 <= i && j == i + 1 < |d| ensures Joined(n1, p1, d[i], d[j]) {
      if i < k {
        RingAt(next, prev, h, xs, i);
        assert d[i] == c[i] && d[j] == c[j];
      } else if i == k {
        assert d[i] == c[k] && d[j] == c[k + 2];
      } else {
        RingAt(next, prev, h, xs, i + 1);
        assert d[i] == c[i + 1] && d[j] == c[j + 1];
      }
    }
  }
}
