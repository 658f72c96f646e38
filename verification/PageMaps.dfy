/** The radix trees of pagemap.h: sparse arrays with two or three levels. The
    shift and the mask of a key are Quot and Rem by the length of a leaf. */
module PageMaps {
  import opened Arithmetic

  type Value = nat

  const NULL: Value := 0
  const WORD: nat := 0x1_0000_0000_0000_0000

  // ----- keys and indices

  /** `k >> b` and `k & (m - 1)`, where `m` is 1 << b. */
  function Quot(k: nat, m: nat): nat
    requires m > 0
  {
    if k < m then 0 else 1 + Quot(k - m, m)
  }

  function Rem(k: nat, m: nat): (r: nat)
    requires m > 0
    ensures r < m && r <= k
  {
    if k < m then k else Rem(k - m, m)
  }

  lemma {:induction false} QuotRem(k: nat, m: nat)
    requires m > 0
    ensures k == Quot(k, m) * m + Rem(k, m)
    ensures Quot(k, m) == k / m && Rem(k, m) == k % m
  {
    if k >= m {
      QuotRem(k - m, m);
      assert k == (Quot(k - m, m) + 1) * m + Rem(k, m);
    }
    Remainder(k, m, Quot(k, m), Rem(k, m));
  }

  /** The keys of one leaf are consecutive, and share the quotient. */
  lemma {:induction false} SameLeaf(k: nat, m: nat, i: nat)
    requires m > 0 && i < m
    ensures var j := k - Rem(k, m) + i; Quot(j, m) == Quot(k, m) && Rem(j, m) == i
    ensures var e := k - Rem(k, m) + m; Quot(e, m) == Quot(k, m) + 1 && Rem(e, m) == 0
  {
    if k >= m {
      SameLeaf(k - m, m, i);
    }
  }

  lemma {:induction false} LeafBase(j: nat, k: nat, m: nat)
    requires m > 0 && Quot(j, m) == Quot(k, m)
    ensures j - Rem(j, m) == k - Rem(k, m)
  {
    if j >= m && k >= m {
      LeafBase(j - m, k - m, m);
    }
  }

  /** Indices and keys determine each other. */
  lemma IndexUnique(j: nat, k: nat, m: nat)
    requires m > 0
    ensures j == k <==> Quot(j, m) == Quot(k, m) && Rem(j, m) == Rem(k, m)
  {
    if Quot(j, m) == Quot(k, m) { LeafBase(j, k, m); }
  }

  lemma {:induction false} QuotBound(k: nat, m: nat, n: nat)
    requires m > 0
    ensures Quot(k, m) < n <==> k < n * m
  {
    if n > 0 && k >= m {
      QuotBound(k - m, m, n - 1);
      assert (n - 1) * m == n * m - m;
    } else if n > 0 {
      assert n * m == (n - 1) * m + m;
    }
  }

  lemma {:induction false} QuotMonotone(j: nat, k: nat, m: nat)
    requires m > 0 && j <= k
    ensures Quot(j, m) <= Quot(k, m)
  {
    if j >= m {
      QuotMonotone(j - m, k - m, m);
    }
  }

  /** The last key of a range in the machine's arithmetic: an empty range that
      starts at 0 wraps around to the largest word. */
  function LastKey(start: nat, n: nat): nat {
    if start + n == 0 then WORD - 1 else start + n - 1
  }

  /** A leaf, with the indices that lead to it. */
  class Leaf {
    ghost const top: nat
    ghost const mid: nat
    var values: seq<Value>

    constructor (ghost top: nat, ghost mid: nat, length: nat)
      ensures this.top == top && this.mid == mid && values == seq(length, _ => NULL)
    {
      this.top, this.mid := top, mid;
      values := seq(length, _ => NULL);
    }
  }

  // ----- two levels

  const ROOT_BITS: nat := 5
  const ROOT_LENGTH: nat := 32

  class PageMap2 {
    const bits: nat
    const leafLength: nat
    const root: array<Leaf?>
    ghost var leaves: set<Leaf>

    /** The length of a leaf belongs to the number of bits. */
    ghost predicate Sized() {
      bits >= ROOT_BITS && leafLength == Pow2(bits - ROOT_BITS)
    }

    ghost predicate Valid()
      reads this, root, leaves
    {
      && leafLength > 0 && root.Length == ROOT_LENGTH
      && forall i | 0 <= i < ROOT_LENGTH && root[i] != null ::
           root[i] in leaves && root[i].top == i && |root[i].values| == leafLength
    }

    constructor (bits: nat)
      requires bits >= ROOT_BITS
      ensures Valid() && Sized() && fresh(root) && this.bits == bits && leaves == {}
      ensures forall k: nat :: Get(k) == NULL
    {
      this.bits := bits;
      leafLength := Pow2(bits - ROOT_BITS);
      root := new Leaf?[ROOT_LENGTH](_ => null);
      leaves := {};
    }

    /** The keys are those below 2^bits. */
    lemma KeyRange(k: nat)
      requires Valid() && Sized()
      ensures leafLength > 0 && ROOT_LENGTH * leafLength == Pow2(bits)
      ensures k < Pow2(bits) <==> Quot(k, leafLength) < ROOT_LENGTH
    {
      Pow2Add(ROOT_BITS, bits - ROOT_BITS);
      assert Pow2(ROOT_BITS) == ROOT_LENGTH by { assert Pow2(2) == 4 && Pow2(3) == 8 && Pow2(4) == 16; }
      QuotBound(k, leafLength, ROOT_LENGTH);
    }

    /** The value of a key; NULL if it is not set or out of range. */
    function Get(k: nat): (v: Value)
      reads this, root, leaves
      requires Valid()
    {
      var i1 := Quot(k, leafLength);
      if i1 >= ROOT_LENGTH || root[i1] == null then NULL else root[i1].values[Rem(k, leafLength)]
    }

    /** There is room for the key. */
    predicate Ensured(k: nat)
      reads this, root, leaves
      requires Valid()
    {
      Quot(k, leafLength) < ROOT_LENGTH && root[Quot(k, leafLength)] != null
    }

    method Set(k: nat, v: Value)
      requires Valid() && Ensured(k)
      modifies leaves
      ensures Valid() && forall j: nat :: Get(j) == (if j == k then v else old(Get(j))) && (Ensured(j) <==> old(Ensured(j)))
    {
      hide Quot, Rem, Pow2;
      var leaf := root[Quot(k, leafLength)];
      leaf.values := leaf.values[Rem(k, leafLength) := v];
      forall j: nat ensures Get(j) == (if j == k then v else old(Get(j))) {
        IndexUnique(j, k, leafLength);
      }
    }

    /** Makes room for `n` keys from `start`; `failed` tells that the allocator
        returned NULL. */
    method Ensure(start: nat, n: nat) returns (ok: bool, ghost failed: bool)
      requires Valid() && Sized() && start + n <= WORD && Pow2(bits) <= WORD
      modifies `leaves, root
      ensures Valid() && fresh(leaves - old(leaves)) && old(leaves) <= leaves
      ensures forall j: nat :: Get(j) == old(Get(j)) && (old(Ensured(j)) ==> Ensured(j))
      ensures ok <==> !failed && (start <= LastKey(start, n) ==> LastKey(start, n) < Pow2(bits))
      ensures ok ==> forall j: nat | start <= j < start + n :: Ensured(j)
    {
      hide Sized, Quot, Rem, Pow2;
      var key, last := start, LastKey(start, n);
      failed := false;
      KeyRange(last);
      while key <= last
        invariant Valid() && old(leaves) <= leaves && fresh(leaves - old(leaves)) && !failed
        invariant forall j: nat :: Get(j) == old(Get(j)) && (old(Ensured(j)) ==> Ensured(j))
        invariant forall j: nat | start <= j < key :: Ensured(j)
        invariant key > start && key > last ==> Quot(last, leafLength) < ROOT_LENGTH
        decreases last + 1 - key
      {
        KeyRange(key);
        var i1 := Quot(key, leafLength);
        if i1 >= ROOT_LENGTH {
          QuotMonotone(key, last, leafLength);
          return false, false;
        }
        if root[i1] == null {
          var null_: bool := *;
          if null_ {
            return false, true;
          }
          AddLeaf(i1);
        }
        ghost var next := key - Rem(key, leafLength) + leafLength;
        forall j: nat | key <= j < next ensures Quot(j, leafLength) == i1 {
          SameLeaf(key, leafLength, j - (key - Rem(key, leafLength)));
        }
        if last < next { assert Quot(last, leafLength) == i1; }
        key := NextLeaf(key, leafLength);
      }
      KeyRange(last);
      return true, false;
    }

    /** A new leaf of NULLs changes no value. */
    method AddLeaf(i1: nat)
      requires Valid() && i1 < ROOT_LENGTH && root[i1] == null
      modifies `leaves, root
      ensures Valid() && root[i1] != null && old(leaves) <= leaves && fresh(leaves - old(leaves))
      ensures forall j: nat :: Get(j) == old(Get(j)) && (old(Ensured(j)) ==> Ensured(j))
      ensures forall i | 0 <= i < ROOT_LENGTH && old(root[i]) != null :: root[i] != null
    {
      hide Quot, Pow2;
      var leaf := new Leaf(i1, 0, leafLength);
      root[i1] := leaf;
      leaves := leaves + {leaf};
    }

    /** The value at the first set key from `k0` on, or NULL. */
    method Next(k0: nat) returns (v: Value)
      requires Valid() && Sized()
      ensures v != NULL ==> exists k: nat :: FirstFrom(k0, k) && Get(k) == v
      ensures v == NULL ==> forall j: nat | j >= k0 :: Get(j) == NULL
    {
      hide Sized, Quot, Rem, Pow2;
      var k := k0;
      KeyRange(k);
      while k < Pow2(bits)
        invariant k0 <= k && forall j: nat | k0 <= j < k :: Get(j) == NULL
        decreases Pow2(bits) - k
      {
        KeyRange(k);
        var i1 := Quot(k, leafLength);
        var leaf := root[i1];
        ghost var start := k - Rem(k, leafLength);
        if leaf != null {
          var i2 := Rem(k, leafLength);
          while i2 < leafLength
            invariant Rem(k, leafLength) <= i2 <= leafLength
            invariant forall j: nat | k0 <= j < start + i2 :: Get(j) == NULL
          {
            SameLeaf(k, leafLength, i2);
            assert Get(start + i2) == leaf.values[i2];
            if leaf.values[i2] != NULL {
              assert FirstFrom(k0, start + i2);
              return leaf.values[i2];
            }
            i2 := i2 + 1;
          }
        } else {
          forall j: nat | k <= j < start + leafLength ensures Get(j) == NULL { SameLeaf(k, leafLength, j - start); }
        }
        k := NextLeaf(k, leafLength);
      }
      forall j: nat | j >= k0 ensures Get(j) == NULL { KeyRange(j); }
      return NULL;
    }

    ghost predicate FirstFrom(k0: nat, k: nat)
      reads this, root, leaves
      requires Valid()
    {
      k0 <= k && Get(k) != NULL && forall j: nat | k0 <= j < k :: Get(j) == NULL
    }
  }

  /** `((k >> b) + 1) << b`: the first key of the next leaf. */
  method NextLeaf(k: nat, m: nat) returns (next: nat)
    requires m > 0
    ensures next == k - Rem(k, m) + m
  {
    QuotRem(k, m);
    next := (Quot(k, m) + 1) * m;
  }

  // ----- three levels

  class Node {
    ghost const number: nat
    var ptrs: seq<Leaf?>

    constructor (ghost number: nat, length: nat)
      ensures this.number == number && ptrs == seq(length, _ => null)
    {
      this.number := number;
      ptrs := seq(length, _ => null);
    }
  }

  /** INTERIOR_BITS and LEAF_BITS. */
  function InteriorBits(bits: nat): nat { (bits + 2) / 3 }

  predicate Deep(bits: nat) { bits >= 2 * InteriorBits(bits) }

  function LeafBits(bits: nat): nat
    requires Deep(bits)
  {
    bits - 2 * InteriorBits(bits)
  }

  class PageMap3 {
    const bits: nat
    const interiorLength: nat
    const leafLength: nat
    const root: array<Node?>      // the pointers of the root node
    ghost var nodes: set<Node>
    ghost var leaves: set<Leaf>

    /** The lengths belong to the number of bits. */
    ghost predicate Sized() {
      Deep(bits) && leafLength == Pow2(LeafBits(bits)) && interiorLength == Pow2(InteriorBits(bits))
    }

    ghost predicate Valid()
      reads this, root, nodes, leaves
    {
      && root.Length == interiorLength && leafLength > 0 && interiorLength > 0
      && (forall i | 0 <= i < interiorLength && root[i] != null ::
            root[i] in nodes && root[i].number == i && |root[i].ptrs| == interiorLength)
      && (forall i, j | 0 <= i < interiorLength && root[i] != null && 0 <= j < |root[i].ptrs| && root[i].ptrs[j] != null ::
            root[i].ptrs[j] in leaves && LeafOK(root[i].ptrs[j], i, j))
    }

    ghost predicate LeafOK(leaf: Leaf?, i: nat, j: nat)
      reads leaf
    {
      leaf != null && leaf.top == i && leaf.mid == j && |leaf.values| == leafLength
    }

    constructor (bits: nat)
      requires Deep(bits)
      ensures Valid() && Sized() && fresh(root) && this.bits == bits && nodes == {} && leaves == {}
      ensures forall k: nat :: Get(k) == NULL
    {
      this.bits := bits;
      leafLength := Pow2(LeafBits(bits));
      interiorLength := Pow2(InteriorBits(bits));
      root := new Node?[Pow2(InteriorBits(bits))](_ => null);
      nodes, leaves := {}, {};
    }

    /** The indices of a key in the root and in its node. */
    function Top(k: nat): nat
      requires leafLength > 0 && interiorLength > 0
    {
      Quot(Quot(k, leafLength), interiorLength)
    }

    function Mid(k: nat): (i: nat)
      requires leafLength > 0 && interiorLength > 0
      ensures i < interiorLength
    {
      Rem(Quot(k, leafLength), interiorLength)
    }

    /** The keys are those below 2^bits. */
    lemma KeyRange(k: nat)
      requires Valid() && Sized()
      ensures leafLength > 0 && interiorLength > 0 && (k < Pow2(bits) <==> Top(k) < interiorLength)
    {
      var i, l := interiorLength, leafLength;
      Pow2Add(InteriorBits(bits) + InteriorBits(bits), LeafBits(bits));
      Pow2Add(InteriorBits(bits), InteriorBits(bits));
      QuotBound(Quot(k, l), i, i);
      QuotBound(k, l, i * i);
    }

    function Get(k: nat): (v: Value)
      reads this, root, nodes, leaves
      requires Valid()
    {
      if Top(k) >= interiorLength || root[Top(k)] == null || root[Top(k)].ptrs[Mid(k)] == null then NULL
      else root[Top(k)].ptrs[Mid(k)].values[Rem(k, leafLength)]
    }

    predicate Ensured(k: nat)
      reads this, root, nodes, leaves
      requires Valid()
    {
      Top(k) < interiorLength && root[Top(k)] != null && root[Top(k)].ptrs[Mid(k)] != null
    }

    method Set(k: nat, v: Value)
      requires Valid() && Ensured(k)
      modifies leaves
      ensures Valid() && forall j: nat :: Get(j) == (if j == k then v else old(Get(j))) && (Ensured(j) <==> old(Ensured(j)))
    {
      hide Quot, Rem, Pow2;
      var leaf := root[Top(k)].ptrs[Mid(k)];
      LeafNumber(k);
      leaf.values := leaf.values[Rem(k, leafLength) := v];
      forall j: nat ensures Get(j) == (if j == k then v else old(Get(j))) {
        IndexUnique(j, k, leafLength);
        IndexUnique(Quot(j, leafLength), Quot(k, leafLength), interiorLength);
        if old(Ensured(j)) { LeafNumber(j); }
      }
    }

    /** The leaf of a key is the one for its first two indices. */
    lemma LeafNumber(k: nat)
      requires Valid() && Ensured(k)
      ensures root[Top(k)].ptrs[Mid(k)].top == Top(k) && root[Top(k)].ptrs[Mid(k)].mid == Mid(k)
    {
      hide Quot, Rem, Pow2;
      assert LeafOK(root[Top(k)].ptrs[Mid(k)], Top(k), Mid(k));
    }

    /** Makes room for `n` keys from `start`; `failed` tells that the allocator
        returned NULL. */
    method Ensure(start: nat, n: nat) returns (ok: bool, ghost failed: bool)
      requires Valid() && Sized() && start + n <= WORD && Pow2(bits) <= WORD
      modifies `nodes, `leaves, root, nodes
      ensures Valid() && fresh(nodes - old(nodes)) && old(nodes) <= nodes && fresh(leaves - old(leaves)) && old(leaves) <= leaves
      ensures forall j: nat :: Get(j) == old(Get(j)) && (old(Ensured(j)) ==> Ensured(j))
      ensures ok <==> !failed && (start <= LastKey(start, n) ==> LastKey(start, n) < Pow2(bits))
      ensures ok ==> forall j: nat | start <= j < start + n :: Ensured(j)
    {
      hide Valid, Sized, Get, Ensured, Quot, Rem, Pow2, Mid;
      var key, last := start, LastKey(start, n);
      failed := false;
      KeyRange(last);
      while key <= last
        invariant Valid() && !failed && old(nodes) <= nodes && fresh(nodes - old(nodes)) && old(leaves) <= leaves && fresh(leaves - old(leaves))
        invariant forall j: nat :: Get(j) == old(Get(j)) && (old(Ensured(j)) ==> Ensured(j))
        invariant forall j: nat | start <= j < key :: Ensured(j)
        invariant key > start && key > last ==> Top(last) < interiorLength
        decreases last + 1 - key
      {
        KeyRange(key);
        if Top(key) >= interiorLength || Mid(key) >= interiorLength {
          QuotMonotone(key, last, leafLength);
          QuotMonotone(Quot(key, leafLength), Quot(last, leafLength), interiorLength);
          return false, false;
        }
        ok, failed := MakeRoom(key);
        if !ok {
          return;
        }
        ghost var next := key - Rem(key, leafLength) + leafLength;
        forall j: nat | key <= j < next ensures Ensured(j) && Top(j) == Top(key) {
          SameLeaf(key, leafLength, j - (key - Rem(key, leafLength)));
          LeafEnsured(key, j);
        }
        key := NextLeaf(key, leafLength);
      }
      KeyRange(last);
      return true, false;
    }

    lemma LeafEnsured(k: nat, j: nat)
      requires Valid() && Quot(j, leafLength) == Quot(k, leafLength)
      ensures Ensured(j) <==> Ensured(k)
    {
    }

    /** The node and the leaf of one key. */
    method MakeRoom(key: nat) returns (ok: bool, ghost failed: bool)
      requires Valid() && Top(key) < interiorLength
      modifies `nodes, `leaves, root, nodes
      ensures Valid() && fresh(nodes - old(nodes)) && old(nodes) <= nodes && fresh(leaves - old(leaves)) && old(leaves) <= leaves
      ensures forall j: nat :: Get(j) == old(Get(j)) && (old(Ensured(j)) ==> Ensured(j))
      ensures (ok <==> !failed) && (ok ==> Ensured(key))
    {
      hide Quot, Rem, Pow2, LeafOK, Top, Mid;
      var i1, i2 := Top(key), Mid(key);
      if root[i1] == null {
        var null_: bool := *;
        if null_ {
          return false, true;
        }
        AddNode(i1);
      }
      if root[i1].ptrs[i2] == null {
        var null_: bool := *;
        if null_ {
          return false, true;
        }
        AddLeaf(i1, i2);
      }
      return true, false;
    }

    /** A new node of NULLs changes no value. */
    method AddNode(i1: nat)
      requires Valid() && i1 < interiorLength && root[i1] == null
      modifies `nodes, root
      ensures Valid() && root[i1] != null && old(nodes) <= nodes && fresh(nodes - old(nodes))
      ensures forall j: nat :: Get(j) == old(Get(j)) && (old(Ensured(j)) ==> Ensured(j))
    {
      hide Quot, Pow2, LeafOK;
      var node := new Node(i1, interiorLength);
      root[i1] := node;
      nodes := nodes + {node};
    }

    method AddLeaf(i1: nat, i2: nat)
      requires Valid() && i1 < interiorLength && i2 < interiorLength && root[i1] != null && root[i1].ptrs[i2] == null
      modifies `leaves, nodes
      ensures Valid() && root[i1].ptrs[i2] != null && old(leaves) <= leaves && fresh(leaves - old(leaves))
      ensures forall j: nat :: Get(j) == old(Get(j)) && (old(Ensured(j)) ==> Ensured(j))
    {
      hide Quot, Pow2;
      var leaf := new Leaf(i1, i2, leafLength);
      root[i1].ptrs := root[i1].ptrs[i2 := leaf];
      leaves := leaves + {leaf};
    }

    /** The value at the first set key from `k0` on, or NULL. */
    method Next(k0: nat) returns (v: Value)
      requires Valid() && Sized()
      ensures v != NULL ==> exists k: nat :: FirstFrom(k0, k) && Get(k) == v
      ensures v == NULL ==> forall j: nat | j >= k0 :: Get(j) == NULL
    {
      hide Sized, Quot, Rem, Pow2, LeafOK;
      var k := k0;
      while k < Pow2(bits)
        invariant k0 <= k && forall j: nat | k0 <= j < k :: Get(j) == NULL
        decreases Pow2(bits) - k
      {
        KeyRange(k);
        var i1 := Top(k);
        if root[i1] == null {
          NextTopRange(k);
          k := (i1 + 1) * interiorLength * leafLength;
        } else {
          v := ScanLeaf(k0, k);
          if v != NULL {
            return;
          }
          k := NextLeaf(k, leafLength);
        }
      }
      forall j: nat | j >= k0 ensures Get(j) == NULL { KeyRange(j); }
      return NULL;
    }

    /** The rest of the leaf of `k`, for Next. */
    method ScanLeaf(ghost k0: nat, k: nat) returns (v: Value)
      requires Valid() && Top(k) < interiorLength && root[Top(k)] != null
      requires k0 <= k && forall j: nat | k0 <= j < k :: Get(j) == NULL
      ensures v != NULL ==> exists j: nat :: FirstFrom(k0, j) && Get(j) == v
      ensures v == NULL ==> forall j: nat | k0 <= j < k - Rem(k, leafLength) + leafLength :: Get(j) == NULL
    {
      hide Quot, Rem, Pow2, LeafOK;
      var leaf := root[Top(k)].ptrs[Mid(k)];
      ghost var start := k - Rem(k, leafLength);
      if leaf == null {
        forall j: nat | k <= j < start + leafLength ensures Get(j) == NULL { SameLeaf(k, leafLength, j - start); }
        return NULL;
      }
      assert LeafOK(leaf, Top(k), Mid(k));
      assert |leaf.values| == leafLength by { LeafLength(k); }
      var i3 := Rem(k, leafLength);
      while i3 < leafLength
        invariant Rem(k, leafLength) <= i3 <= leafLength
        invariant forall j: nat | k0 <= j < start + i3 :: Get(j) == NULL
      {
        SameLeaf(k, leafLength, i3);
        assert Get(start + i3) == leaf.values[i3];
        if leaf.values[i3] != NULL {
          assert FirstFrom(k0, start + i3);
          return leaf.values[i3];
        }
        i3 := i3 + 1;
      }
      return NULL;
    }

    lemma LeafLength(k: nat)
      requires Valid() && Ensured(k)
      ensures |root[Top(k)].ptrs[Mid(k)].values| == leafLength
    {
      assert LeafOK(root[Top(k)].ptrs[Mid(k)], Top(k), Mid(k));
    }

    /** The keys up to the next entry of the root share the index in the root. */
    lemma NextTopRange(k: nat)
      requires Valid()
      ensures k < (Top(k) + 1) * interiorLength * leafLength
      ensures forall j: nat | k <= j < (Top(k) + 1) * interiorLength * leafLength :: Top(j) == Top(k)
    {
      hide Quot, Rem, Pow2, LeafOK;
      var i, l := interiorLength, leafLength;
      var n := (Top(k) + 1) * i;
      QuotBound(Quot(k, l), i, Top(k) + 1);
      QuotBound(k, l, n);
      forall j: nat | k <= j < n * l ensures Top(j) == Top(k) {
        QuotBound(j, l, n);
        QuotBound(Quot(j, l), i, Top(k) + 1);
        QuotMonotone(k, j, l);
        QuotMonotone(Quot(k, l), Quot(j, l), i);
      }
    }

    ghost predicate FirstFrom(k0: nat, k: nat)
      reads this, root, nodes, leaves
      requires Valid()
    {
      k0 <= k && Get(k) != NULL && forall j: nat | k0 <= j < k :: Get(j) == NULL
    }
  }
}
