/** The set of mmap-ed regions of memory_region_map.cc, and the subtraction of
    regions in heap-checker.cc. */
module MemoryRegions {

  type Addr = nat

  /** `stack` stands for the recorded call stack. */
  datatype Region = Region(start: Addr, end: Addr, stack: int, isStack: bool)

  predicate Inside(r: Region, x: Addr) { r.start <= x < r.end }

  ghost predicate Covered(regions: seq<Region>, x: Addr) {
    exists i :: 0 <= i < |regions| && Inside(regions[i], x)
  }

  /** The set is kept in the order of the ends, and its members do not overlap. */
  ghost predicate Ordered(regions: seq<Region>) {
    && (forall i | 0 <= i < |regions| :: regions[i].start < regions[i].end)
    && (forall i, j | 0 <= i < j < |regions| :: regions[i].end <= regions[j].start)
  }

  /** The index that std::set::lower_bound finds for a key: the first region whose
      end is not before it. */
  function LowerBound(regions: seq<Region>, key: Addr): (k: nat)
    ensures k <= |regions|
    ensures forall i | 0 <= i < k :: regions[i].end < key
    ensures k < |regions| ==> regions[k].end >= key
  {
    if regions == [] || regions[0].end >= key then 0 else 1 + LowerBound(regions[1..], key)
  }

  /** No address of the region is covered yet. */
  ghost predicate New(rs: seq<Region>, r: Region) {
    forall x: Addr | r.start <= x < r.end :: !Covered(rs, x)
  }

  /** The region lies within one that is known. */
  ghost predicate Part(rs: seq<Region>, r: Region) {
    exists i :: 0 <= i < |rs| && Within(rs[i], r)
  }

  predicate Within(whole: Region, r: Region) { whole.start <= r.start && r.end <= whole.end }

  // ----- removal

  /** What the removal of [s, e) leaves of one region. */
  function Cut(r: Region, s: Addr, e: Addr): seq<Region> {
    if s <= r.start && r.end <= e then []
    else if r.start < s && e < r.end then [r.(start := e)]
    else if e > r.start && s <= r.start then [r.(start := e)]
    else if s > r.start && s < r.end then [r.(end := s)]
    else [r]
  }

  function CutAll(regions: seq<Region>, s: Addr, e: Addr): seq<Region> {
    if regions == [] then [] else CutAll(regions[..|regions| - 1], s, e) + Cut(regions[|regions| - 1], s, e)
  }

  /** A region holds the removed range strictly between its ends. */
  ghost predicate Split(r: Region, s: Addr, e: Addr) { r.start < s && e < r.end }

  /** Addresses that lose their region although they were not removed. */
  ghost predicate Lost(regions: seq<Region>, s: Addr, e: Addr, x: Addr) {
    exists i :: 0 <= i < |regions| && Split(regions[i], s, e) && regions[i].start <= x < s
  }

  /** A region of the result, traced back to the one it is part of. */
  lemma {:induction false} CutFrom(regions: seq<Region>, s: Addr, e: Addr, i: nat) returns (k: nat)
    requires i < |CutAll(regions, s, e)|
    ensures k < |regions| && Cut(regions[k], s, e) == [CutAll(regions, s, e)[i]]
  {
    var rest := regions[..|regions| - 1];
    if i < |CutAll(rest, s, e)| {
      k := CutFrom(rest, s, e, i);
      assert rest[k] == regions[k];
    } else {
      k := |regions| - 1;
    }
  }

  lemma {:induction false} CutTo(regions: seq<Region>, s: Addr, e: Addr, k: nat) returns (i: nat)
    requires k < |regions| && Cut(regions[k], s, e) != []
    ensures i < |CutAll(regions, s, e)| && Cut(regions[k], s, e) == [CutAll(regions, s, e)[i]]
  {
    var rest := regions[..|regions| - 1];
    if k < |rest| {
      assert rest[k] == regions[k];
      i := CutTo(rest, s, e, k);
    } else {
      i := |CutAll(rest, s, e)|;
    }
  }

  /** Exactly what is covered after a removal. */
  lemma RemovalCovers(regions: seq<Region>, s: Addr, e: Addr, x: Addr)
    requires Ordered(regions) && s <= e
    ensures Covered(CutAll(regions, s, e), x) <==> Covered(regions, x) && !(s <= x < e) && !Lost(regions, s, e, x)
  {
    var rs := CutAll(regions, s, e);
    if Covered(rs, x) {
      var i :| 0 <= i < |rs| && Inside(rs[i], x);
      var k := CutFrom(regions, s, e, i);
      assert Inside(regions[k], x);
      OneInside(regions, s, e, k, x);
    }
    if Covered(regions, x) && !(s <= x < e) && !Lost(regions, s, e, x) {
      var k :| 0 <= k < |regions| && Inside(regions[k], x);
      assert Cut(regions[k], s, e) != [] && Inside(Cut(regions[k], s, e)[0], x);
      var i := CutTo(regions, s, e, k);
    }
  }

  /** At most one region holds an address or surrounds a range that ends after it. */
  lemma OneInside(regions: seq<Region>, s: Addr, e: Addr, k: nat, x: Addr)
    requires Ordered(regions) && s <= e && k < |regions| && Inside(regions[k], x) && !(Split(regions[k], s, e) && x < s)
    ensures !Lost(regions, s, e, x)
  {
  }

  /** Nothing but the removed range is lost if and only if no single region holds
      the range strictly inside. */
  lemma RemovalExact(regions: seq<Region>, s: Addr, e: Addr)
    requires Ordered(regions) && s <= e
    ensures (forall x: Addr :: Covered(CutAll(regions, s, e), x) <==> Covered(regions, x) && !(s <= x < e))
            <==> (forall i | 0 <= i < |regions| :: !Split(regions[i], s, e))
  {
    forall x: Addr ensures Covered(CutAll(regions, s, e), x) <==> Covered(regions, x) && !(s <= x < e) && !Lost(regions, s, e, x) {
      RemovalCovers(regions, s, e, x);
    }
    if i :| 0 <= i < |regions| && Split(regions[i], s, e) {
      var x := regions[i].start;
      assert Inside(regions[i], x) && Lost(regions, s, e, x);
      assert Covered(regions, x) && !Covered(CutAll(regions, s, e), x);
    }
  }

  /** A page in the middle of a region is removed, and the pages before it go too. */
  lemma SplitLoses()
    ensures var regions := [Region(0x1000, 0x4000, 7, false)];
            Ordered(regions) && Covered(regions, 0x1000) && !Covered(CutAll(regions, 0x2000, 0x3000), 0x1000)
  {
    var regions := [Region(0x1000, 0x4000, 7, false)];
    assert Inside(regions[0], 0x1000) && regions[..0] == [];
    assert CutAll(regions, 0x2000, 0x3000) == [Region(0x3000, 0x4000, 7, false)];
  }

  /** What is left of a region keeps its call stack and its stack flag. */
  lemma {:induction false} RemovalKeeps(regions: seq<Region>, s: Addr, e: Addr, c: Region)
    requires s <= e && c in CutAll(regions, s, e)
    ensures exists r :: r in regions && LeftOf(r, c)
  {
    if regions != [] {
      var rest, r := regions[..|regions| - 1], regions[|regions| - 1];
      if c in CutAll(rest, s, e) {
        RemovalKeeps(rest, s, e, c);
      } else {
        assert c in Cut(r, s, e) && LeftOf(r, c);
      }
    }
  }

  predicate LeftOf(r: Region, c: Region) { c.stack == r.stack && c.isStack == r.isStack && Within(r, c) }

  lemma RemovalOrdered(regions: seq<Region>, s: Addr, e: Addr)
    requires Ordered(regions) && s <= e
    ensures Ordered(CutAll(regions, s, e))
    ensures regions != [] ==> forall i | 0 <= i < |CutAll(regions, s, e)| :: CutAll(regions, s, e)[i].end <= regions[|regions| - 1].end
  {
    if regions != [] {
      var rest := regions[..|regions| - 1];
      RemovalOrdered(rest, s, e);
      assert forall i | 0 <= i < |rest| :: rest[i] == regions[i];
    }
  }

  /** Regions that end before the range, or start after it, stay as they are. */
  lemma {:induction false} CutNone(regions: seq<Region>, s: Addr, e: Addr)
    requires s <= e && forall i | 0 <= i < |regions| :: regions[i].start < regions[i].end && (regions[i].end <= s || e <= regions[i].start)
    ensures CutAll(regions, s, e) == regions
  {
    if regions != [] {
      CutNone(regions[..|regions| - 1], s, e);
      assert regions == regions[..|regions| - 1] + [regions[|regions| - 1]];
    }
  }

  lemma {:induction false} CutAppend(a: seq<Region>, b: seq<Region>, s: Addr, e: Addr)
    ensures CutAll(a + b, s, e) == CutAll(a, s, e) + CutAll(b, s, e)
  {
    if b != [] {
      var b1 := b[..|b| - 1];
      CutAppend(a, b1, s, e);
      assert (a + b)[..|a + b| - 1] == a + b1;
    } else {
      assert a + b == a;
    }
  }

  class MemoryRegionMap {
    var regions: seq<Region>   // the std::set, in its order

    ghost predicate Valid()
      reads this
    {
      Ordered(regions)
    }

    constructor ()
      ensures Valid() && regions == []
    {
      regions := [];
    }

    /** DoInsertRegionLocked: a part of a recorded region is not inserted, and the
        set ignores a region whose end it has as a key already. */
    method DoInsertRegion(r: Region) returns (inserted: bool)
      requires r.start < r.end
      modifies this
      ensures var k := LowerBound(old(regions), r.end);
              && (inserted <==> !(k < |old(regions)| && (old(regions)[k].start <= r.start || old(regions)[k].end == r.end)))
              && regions == if inserted then old(regions)[..k] + [r] + old(regions)[k..] else old(regions)
    {
      var k := LowerBound(regions, r.end);
      if k < |regions| && regions[k].start <= r.start {
        return false;
      }
      inserted := !(k < |regions| && regions[k].end == r.end);
      if inserted {
        regions := regions[..k] + [r] + regions[k..];
      }
    }

    /** RecordRegionAddition. It is meant for memory that is new, or part of a known
        region; then the addresses of the region are added, and no others. The
        region is ignored exactly if it is part of a known one, or one with the same
        end starts later; the regions stay disjoint exactly in these cases, and if
        nothing overlaps. */
    method RecordRegionAddition(start: Addr, size: nat, stack: int)
      requires Valid() && size > 0
      modifies this
      ensures var r := Region(start, start + size, stack, false);
              && regions == Added(old(regions), r)
              && (regions == old(regions) <==> Part(old(regions), r) || SameEndLater(old(regions), r))
              && (Valid() <==> New(old(regions), r) || Part(old(regions), r) || SameEndLater(old(regions), r))
              && (New(old(regions), r) || Part(old(regions), r) ==>
                    forall x: Addr :: Covered(regions, x) <==> Covered(old(regions), x) || Inside(r, x))
              && (AllCovered(regions, r) <==> AllCovered(old(regions), r) || !SameEndLater(old(regions), r))
              && (forall x: Addr :: Covered(old(regions), x) ==> Covered(regions, x))
              && (forall x: Addr :: Covered(regions, x) ==> Covered(old(regions), x) || Inside(r, x))
    {
      hide Ordered, New, Part, Covered, AllCovered, SameEndLater;
      ghost var rs := regions;
      var r := Region(start, start + size, stack, false);
      ghost var k := LowerBound(regions, r.end);
      AddedCovers(rs, r, k);
      AddedAnyway(rs, r, k);
      AddedWhen(rs, r, k);
      var inserted := DoInsertRegion(r);
    }

    /** DoFindRegionLocked: the index of the region, or none. */
    method FindRegion(addr: Addr) returns (found: bool, k: nat)
      requires Valid()
      ensures found ==> k < |regions| && Inside(regions[k], addr)
      ensures found <==> Covered(regions, addr) && forall i | 0 <= i < |regions| :: regions[i].end != addr
    {
      k := LowerBound(regions, addr);
      found := k < |regions| && regions[k].start <= addr < regions[k].end;
      if found {
        assert Inside(regions[k], addr);
      }
    }

    /** FindAndMarkStackRegion. */
    method FindAndMarkStackRegion(top: Addr) returns (found: bool, k: nat)
      requires Valid()
      modifies this
      ensures Valid() && (found <==> Covered(old(regions), top) && forall i | 0 <= i < |old(regions)| :: old(regions)[i].end != top)
      ensures found ==> k < |old(regions)| && Inside(old(regions)[k], top)
      ensures regions == if found then old(regions)[k := old(regions)[k].(isStack := true)] else old(regions)
    {
      found, k := FindRegion(top);
      if found {
        regions := regions[k := regions[k].(isStack := true)];
      }
    }

    /** RecordRegionRemoval, when it is not called from within an insertion. */
    method RecordRegionRemoval(start: Addr, size: nat)
      requires Valid()
      modifies this
      ensures Valid() && regions == CutAll(old(regions), start, start + size)
    {
      hide Ordered, CutAll, Cut, LowerBound;
      var end := start + size;
      ghost var rs := regions;
      var k: nat := LowerBound(regions, start);
      ghost var i: nat := k;
      CutBelow(rs, start, end);
      RemovalOrdered(rs, start, end);
      while k < |regions| && regions[k].start < end
        invariant i <= |rs| && k <= |regions| && regions[..k] == CutAll(rs[..i], start, end) && regions[k..] == rs[i..]
        decreases |rs| - i
      {
        k := RemoveNext(k, rs, i, start, end);
        i := i + 1;
      }
      CutRest(rs, i, start, end);
      assert regions == regions[..k] + regions[k..];
    }

    /** One round of the loop: the part of the set before `k1` is what the removal
        leaves of the first `i + 1` regions. */
    method RemoveNext(k: nat, ghost rs: seq<Region>, ghost i: nat, start: Addr, end: Addr) returns (k1: nat)
      requires Ordered(rs) && start <= end && i < |rs| && k < |regions|
      requires regions[..k] == CutAll(rs[..i], start, end) && regions[k..] == rs[i..]
      modifies this
      ensures k1 <= |regions| && regions[..k1] == CutAll(rs[..i + 1], start, end) && regions[k1..] == rs[i + 1..]
    {
      hide Ordered, CutAll, Cut, LowerBound;
      CutNext(rs, i, start, end);
      assert regions[k] == rs[i] && regions[k + 1..] == rs[i + 1..];
      BoundHere(rs, i, start, end, regions, k);
      k1 := RemoveFrom(k, start, end);
    }

    /** The body of the removal loop for the region at `k`; the next one is at `k1`. */
    method RemoveFrom(k: nat, start: Addr, end: Addr) returns (k1: nat)
      requires k < |regions| && start <= end
      requires Split(regions[k], start, end) ==> LowerBound(regions, start) == k
      requires regions[k].start < start < regions[k].end ==>
                 var others := regions[..k] + regions[k + 1..];
                 LowerBound(others, start) == k && (k < |others| ==> others[k].start > regions[k].start && others[k].end > start)
      modifies this
      ensures var rs := old(regions);
              k1 == k + |Cut(rs[k], start, end)| && k1 <= |regions| &&
              regions[..k1] == rs[..k] + Cut(rs[k], start, end) && regions[k1..] == rs[k + 1..]
    {
      var r := regions[k];
      k1 := k;
      if start <= r.start && r.end <= end {
        regions := regions[..k] + regions[k + 1..];
      } else if r.start < start && end < r.end {
        var inserted := DoInsertRegion(r.(end := start));
        regions := regions[k := r.(start := end)];
        k1 := k + 1;
      } else if end > r.start && start <= r.start {
        regions := regions[k := r.(start := end)];
        k1 := k + 1;
      } else if start > r.start && start < r.end {
        regions := regions[..k] + regions[k + 1..];
        var inserted := DoInsertRegion(r.(end := start));
        k1 := k + 1;
      } else {
        k1 := k + 1;
      }
    }
  }

  lemma BoundHere(rs: seq<Region>, i: nat, s: Addr, e: Addr, regions: seq<Region>, k: nat)
    requires Ordered(rs) && s <= e && i < |rs| && k < |regions|
    requires regions[..k] == CutAll(rs[..i], s, e) && regions[k..] == rs[i..]
    ensures Split(regions[k], s, e) ==> LowerBound(regions, s) == k
    ensures regions[k].start < s < regions[k].end ==>
              var others := regions[..k] + regions[k + 1..];
              LowerBound(others, s) == k && (k < |others| ==> others[k].start > regions[k].start && others[k].end > s)
  {
    hide Ordered, CutAll, LowerBound;
    var others := regions[..k] + regions[k + 1..];
    assert regions[k] == rs[i] && regions[k + 1..] == rs[i + 1..];
    assert others[..k] == regions[..k] && others[k..] == regions[k + 1..];
    if Split(regions[k], s, e) { SplitBound(rs, i, s, e, regions, k); }
    if regions[k].start < s < regions[k].end { ChopBound(rs, i, s, e, others, k); }
  }

  lemma CutNext(rs: seq<Region>, i: nat, s: Addr, e: Addr)
    requires i < |rs|
    ensures CutAll(rs[..i + 1], s, e) == CutAll(rs[..i], s, e) + Cut(rs[i], s, e)
  {
    assert rs[..i + 1][..i] == rs[..i];
  }

  lemma CutBelow(rs: seq<Region>, s: Addr, e: Addr)
    requires Ordered(rs) && s <= e
    ensures CutAll(rs[..LowerBound(rs, s)], s, e) == rs[..LowerBound(rs, s)]
  {
    CutNone(rs[..LowerBound(rs, s)], s, e);
  }

  lemma CutRest(rs: seq<Region>, i: nat, s: Addr, e: Addr)
    requires Ordered(rs) && s <= e && i <= |rs| && (i < |rs| ==> e <= rs[i].start)
    ensures CutAll(rs, s, e) == CutAll(rs[..i], s, e) + rs[i..]
  {
    assert rs == rs[..i] + rs[i..];
    CutAppend(rs[..i], rs[i..], s, e);
    CutNone(rs[i..], s, e);
  }

  /** When a region is split, the search for the place of its front part finds the
      region itself, so the front part is taken for a known part and dropped. */
  lemma SplitBound(rs: seq<Region>, i: nat, s: Addr, e: Addr, regions: seq<Region>, k: nat)
    requires Ordered(rs) && s <= e && i < |rs| && rs[i].start < s && e < rs[i].end
    requires k < |regions| && regions[..k] == CutAll(rs[..i], s, e) && regions[k..] == rs[i..]
    ensures LowerBound(regions, s) == k
  {
    CutBefore(rs, i, s, e);
    assert regions[k] == rs[i];
    assert forall j | 0 <= j < k :: regions[j] == regions[..k][j];
  }

  /** When its end is chopped, the front part gets the place of the region. */
  lemma ChopBound(rs: seq<Region>, i: nat, s: Addr, e: Addr, regions: seq<Region>, k: nat)
    requires Ordered(rs) && s <= e && i < |rs| && rs[i].start < s < rs[i].end
    requires k <= |regions| && regions[..k] == CutAll(rs[..i], s, e) && regions[k..] == rs[i + 1..]
    ensures LowerBound(regions, s) == k && (k < |regions| ==> regions[k].start > rs[i].start && regions[k].end > s)
  {
    CutBefore(rs, i, s, e);
    assert k < |regions| ==> regions[k] == rs[i + 1];
    assert forall j | 0 <= j < k :: regions[j] == regions[..k][j];
  }

  lemma CutBefore(rs: seq<Region>, i: nat, s: Addr, e: Addr)
    requires Ordered(rs) && s <= e && i < |rs| && rs[i].start < s
    ensures forall j | 0 <= j < |CutAll(rs[..i], s, e)| :: CutAll(rs[..i], s, e)[j].end < s
  {
    CutNone(rs[..i], s, e);
  }

  /** The regions after an addition. */
  function Added(rs: seq<Region>, r: Region): seq<Region> {
    var k := LowerBound(rs, r.end);
    if k < |rs| && (rs[k].start <= r.start || rs[k].end == r.end) then rs else rs[..k] + [r] + rs[k..]
  }

  lemma AddedWhen(rs: seq<Region>, r: Region, k: nat)
    requires Ordered(rs) && r.start < r.end && k == LowerBound(rs, r.end)
    ensures Added(rs, r) == rs <==> Part(rs, r) || SameEndLater(rs, r)
  {
    hide Ordered;
    SameEnd(rs, r, k);
    if k < |rs| && rs[k].start <= r.start {
      assert Within(rs[k], r);
    } else {
      NotPart(rs, r, k);
      Longer(rs, r, k);
    }
  }

  /** Two regions that overlap after the second was recorded. */
  lemma OverlapAdded()
    ensures var rs, r := [Region(0x1000, 0x3000, 0, false)], Region(0x2000, 0x4000, 0, false);
            Ordered(rs) && !Ordered(Added(rs, r))
  {
    var rs, r := [Region(0x1000, 0x3000, 0, false)], Region(0x2000, 0x4000, 0, false);
    assert Added(rs, r) == [rs[0], r];
    assert [rs[0], r][0].end > [rs[0], r][1].start;
  }

  /** A region that is ignored because its end is taken, and so is not covered. */
  lemma EndTaken()
    ensures var rs, r := [Region(0x2000, 0x3000, 0, false)], Region(0x1000, 0x3000, 0, false);
            Ordered(rs) && Added(rs, r) == rs && Inside(r, 0x1000) && !Covered(Added(rs, r), 0x1000)
  {
  }

  lemma AddedCovers(rs: seq<Region>, r: Region, k: nat)
    requires Ordered(rs) && r.start < r.end && k == LowerBound(rs, r.end)
    ensures Ordered(Added(rs, r)) <==> Added(rs, r) == rs || New(rs, r)
    ensures New(rs, r) || Part(rs, r) ==>
              forall x: Addr :: Covered(Added(rs, r), x) <==> Covered(rs, x) || Inside(r, x)
  {
    hide Ordered, New, Part, Covered;
    if k < |rs| && rs[k].start <= r.start {
      forall x: Addr | Inside(r, x) ensures Covered(rs, x) { CoveredAt(rs, k, x); }
    } else {
      NotPart(rs, r, k);
      if k < |rs| && rs[k].end == r.end {
        LastCovered(rs, r, k);
      } else {
        Longer(rs, r, k);
        if New(rs, r) {
          NewApart(rs, r, k);
          InsertOrdered(rs, r, k);
        } else if Ordered(Added(rs, r)) {
          OrderedNew(rs, r, k);
        }
        forall x: Addr ensures Covered(Added(rs, r), x) <==> Covered(rs, x) || Inside(r, x) {
          InsertCovers(rs, r, k, x);
        }
      }
    }
  }

  lemma Longer(rs: seq<Region>, r: Region, k: nat)
    requires k <= |rs|
    ensures rs[..k] + [r] + rs[k..] != rs
  {
    assert |rs[..k] + [r] + rs[k..]| == |rs| + 1;
  }

  lemma LastCovered(rs: seq<Region>, r: Region, k: nat)
    requires Ordered(rs) && k < |rs| && r.start < r.end && rs[k].end == r.end && rs[k].start > r.start
    ensures !New(rs, r)
  {
    assert Inside(rs[k], r.end - 1);
    assert Covered(rs, r.end - 1);
  }

  lemma OrderedNew(rs: seq<Region>, r: Region, k: nat)
    requires k <= |rs| && Ordered(rs[..k] + [r] + rs[k..])
    ensures New(rs, r)
  {
    var rs1 := rs[..k] + [r] + rs[k..];
    forall i | 0 <= i < |rs| ensures rs[i].end <= r.start || r.end <= rs[i].start {
      assert rs1[k] == r && rs1[if i < k then i else i + 1] == rs[i];
    }
    assert forall x: Addr | r.start <= x < r.end :: !Covered(rs, x);
  }

  ghost predicate AllCovered(rs: seq<Region>, r: Region) {
    forall x: Addr | Inside(r, x) :: Covered(rs, x)
  }

  ghost predicate SameEndLater(rs: seq<Region>, r: Region) {
    exists i :: 0 <= i < |rs| && rs[i].end == r.end && rs[i].start > r.start
  }

  lemma AddedAnyway(rs: seq<Region>, r: Region, k: nat)
    requires Ordered(rs) && r.start < r.end && k == LowerBound(rs, r.end)
    ensures AllCovered(Added(rs, r), r) <==> AllCovered(rs, r) || !SameEndLater(rs, r)
    ensures forall x: Addr :: Covered(rs, x) ==> Covered(Added(rs, r), x)
    ensures forall x: Addr :: Covered(Added(rs, r), x) ==> Covered(rs, x) || Inside(r, x)
  {
    hide Ordered, Covered;
    SameEnd(rs, r, k);
    if k < |rs| && rs[k].start <= r.start {
      forall x: Addr | Inside(r, x) ensures Covered(rs, x) { CoveredAt(rs, k, x); }
    } else if !(k < |rs| && rs[k].end == r.end) {
      forall x: Addr ensures Covered(Added(rs, r), x) <==> Covered(rs, x) || Inside(r, x) {
        InsertCovers(rs, r, k, x);
      }
    }
  }

  lemma SameEnd(rs: seq<Region>, r: Region, k: nat)
    requires Ordered(rs) && r.start < r.end && k == LowerBound(rs, r.end)
    ensures SameEndLater(rs, r) <==> k < |rs| && rs[k].end == r.end && rs[k].start > r.start
  {
  }

  lemma CoveredAt(rs: seq<Region>, k: nat, x: Addr)
    requires k < |rs| && Inside(rs[k], x)
    ensures Covered(rs, x)
  {
  }

  lemma InsertOrdered(rs: seq<Region>, r: Region, k: nat)
    requires Ordered(rs) && r.start < r.end && k <= |rs|
    requires forall i | 0 <= i < |rs| :: if i < k then rs[i].end <= r.start else r.end <= rs[i].start
    ensures Ordered(rs[..k] + [r] + rs[k..])
  {
  }

  lemma InsertCovers(rs: seq<Region>, r: Region, k: nat, x: Addr)
    requires k <= |rs|
    ensures Covered(rs[..k] + [r] + rs[k..], x) <==> Covered(rs, x) || Inside(r, x)
  {
    var rs1 := rs[..k] + [r] + rs[k..];
    if Covered(rs1, x) {
      var i :| 0 <= i < |rs1| && Inside(rs1[i], x);
      assert i < k ==> rs1[i] == rs[i];
      assert i > k ==> rs1[i] == rs[i - 1];
    }
    if Covered(rs, x) {
      var i :| 0 <= i < |rs| && Inside(rs[i], x);
      assert rs1[if i < k then i else i + 1] == rs[i];
    }
    assert rs1[k] == r;
  }

  lemma NotPart(rs: seq<Region>, r: Region, k: nat)
    requires Ordered(rs) && r.start < r.end && k == LowerBound(rs, r.end) && !(k < |rs| && rs[k].start <= r.start)
    ensures !Part(rs, r)
  {
    forall i | 0 <= i < |rs| ensures !Within(rs[i], r) {
      if i > k { assert rs[k].end <= rs[i].start; }
    }
  }

  /** A new region lies between its neighbours. */
  lemma NewApart(rs: seq<Region>, r: Region, k: nat)
    requires Ordered(rs) && r.start < r.end && k == LowerBound(rs, r.end) && !(k < |rs| && rs[k].start <= r.start) && New(rs, r)
    ensures forall i | 0 <= i < |rs| :: if i < k then rs[i].end <= r.start else r.end <= rs[i].start
  {
    forall i | 0 <= i < |rs| ensures if i < k then rs[i].end <= r.start else r.end <= rs[i].start {
      NewSide(rs, r, i);
      if i > k { assert rs[k].end <= rs[i].start; }
    }
  }

  lemma NewSide(rs: seq<Region>, r: Region, i: nat)
    requires i < |rs| && rs[i].start < rs[i].end && r.start < r.end && New(rs, r)
    ensures rs[i].end <= r.start || r.end <= rs[i].start
  {
    var x := if rs[i].start < r.start then r.start else rs[i].start;
    assert Inside(rs[i], x) ==> Covered(rs, x);
  }

  /** A region that starts where another ends is not found by its first address. */
  lemma AdjacentMissed()
    ensures var regions := [Region(0x1000, 0x2000, 1, false), Region(0x2000, 0x3000, 2, false)];
            && Ordered(regions) && Covered(regions, 0x2000)
            && var k := LowerBound(regions, 0x2000);
               k < |regions| && !Inside(regions[k], 0x2000)
  {
    var regions := [Region(0x1000, 0x2000, 1, false), Region(0x2000, 0x3000, 2, false)];
    assert Inside(regions[1], 0x2000);
  }

  // ----- subtraction of regions from global data

  /** A live range, by its first address and size. */
  datatype Range = Range(ptr: Addr, size: nat)

  ghost predicate InRanges(ranges: seq<Range>, x: Addr) {
    exists i :: 0 <= i < |ranges| && InOne(ranges[i], x)
  }

  predicate InOne(o: Range, x: Addr) { o.ptr <= x < o.ptr + o.size }

  /** What is pushed for one range when one region is subtracted. */
  function Less(o: Range, r: Region): seq<Range> {
    var start, end := o.ptr, o.ptr + o.size;
    if r.start <= start && end <= r.end then []
    else if start < r.start && r.end < end then [Range(start, r.start - start), Range(r.end, end - r.end)]
    else if r.end > start && r.start <= start then [Range(r.end, end - r.end)]
    else if r.start > start && r.start < end then [Range(start, r.start - start)]
    else [o]
  }

  lemma LessExact(o: Range, r: Region, x: Addr)
    requires r.start <= r.end
    ensures InRanges(Less(o, r), x) <==> InOne(o, x) && !Inside(r, x)
  {
    var l := Less(o, r);
    assert |l| <= 2;
    if InOne(o, x) && !Inside(r, x) {
      assert l != [];
      assert InOne(l[0], x) || (|l| == 2 && InOne(l[1], x));
    }
  }

  lemma InRangesJoin(a: seq<Range>, b: seq<Range>, x: Addr)
    ensures InRanges(a + b, x) <==> InRanges(a, x) || InRanges(b, x)
  {
    if InRanges(a, x) {
      var i :| 0 <= i < |a| && InOne(a[i], x);
      assert (a + b)[i] == a[i];
    }
    if InRanges(b, x) {
      var i :| 0 <= i < |b| && InOne(b[i], x);
      assert (a + b)[|a| + i] == b[i];
    }
  }

  /** Filters the ranges of a library by the regions to subtract; the result goes
      to a second list, which is swapped with the first after each region. */
  method FilterRanges(library: seq<Range>, regions: seq<Region>, subtract: seq<bool>) returns (filtered: seq<Range>)
    requires |regions| == |subtract| && forall i | 0 <= i < |regions| :: regions[i].start <= regions[i].end
    ensures forall x: Addr :: InRanges(filtered, x) <==>
              InRanges(library, x) && forall i | 0 <= i < |regions| && subtract[i] :: !Inside(regions[i], x)
  {
    filtered := library;
    var k := 0;
    while k < |regions|
      invariant 0 <= k <= |regions|
      invariant forall x: Addr :: InRanges(filtered, x) <==>
                  InRanges(library, x) && forall i | 0 <= i < k && subtract[i] :: !Inside(regions[i], x)
    {
      if subtract[k] {
        filtered := SubtractOne(filtered, regions[k]);
      }
      k := k + 1;
    }
  }

  /** The loop over the ranges for one region. */
  method SubtractOne(ranges: seq<Range>, r: Region) returns (liveObjects: seq<Range>)
    requires r.start <= r.end
    ensures forall x: Addr :: InRanges(liveObjects, x) <==> InRanges(ranges, x) && !Inside(r, x)
  {
    liveObjects := [];
    var i := 0;
    while i < |ranges|
      invariant 0 <= i <= |ranges|
      invariant forall x: Addr :: InRanges(liveObjects, x) <==> InRanges(ranges[..i], x) && !Inside(r, x)
    {
      ghost var was := liveObjects;
      var start, end := ranges[i].ptr, ranges[i].ptr + ranges[i].size;
      if r.start <= start && end <= r.end {
      } else if start < r.start && r.end < end {
        liveObjects := liveObjects + [Range(start, r.start - start)];
        liveObjects := liveObjects + [Range(r.end, end - r.end)];
      } else if r.end > start && r.start <= start {
        liveObjects := liveObjects + [Range(r.end, end - r.end)];
      } else if r.start > start && r.start < end {
        liveObjects := liveObjects + [Range(start, r.start - start)];
      } else {
        liveObjects := liveObjects + [ranges[i]];
      }
      assert liveObjects == was + Less(ranges[i], r);
      assert ranges[..i + 1] == ranges[..i] + [ranges[i]];
      forall x: Addr ensures InRanges(liveObjects, x) <==> InRanges(ranges[..i + 1], x) && !Inside(r, x) {
        LessExact(ranges[i], r, x);
        InRangesJoin(was, Less(ranges[i], r), x);
        InRangesJoin(ranges[..i], [ranges[i]], x);
        assert InRanges([ranges[i]], x) <==> InOne([ranges[i]][0], x);
      }
      i := i + 1;
    }
    assert ranges[..i] == ranges;
  }
}
