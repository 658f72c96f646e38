/** The table of size classes of common.cc, for any page size and any limit on
    the number of objects to transfer. */
module SizeClasses {
  import opened Arithmetic
  import CentralState

  const ALIGNMENT: nat := 8
  const MIN_ALIGN: nat := 16
  const MAX_SIZE: nat := 262144
  const MAX_SMALL_SIZE: nat := 1024
  const CLASS_ARRAY_SIZE: nat := 2169
  const WORD: nat := 0x1_0000_0000_0000_0000

  // ----- logarithm and alignment

  /** The position of the highest bit. */
  function Lg(n: nat): nat
    requires n > 0
  {
    if n < 2 then 0 else 1 + Lg(n / 2)
  }

  lemma {:induction false} LgBounds(n: nat)
    requires n > 0
    ensures Pow2(Lg(n)) <= n < 2 * Pow2(Lg(n))
  {
    if n >= 2 {
      LgBounds(n / 2);
    }
  }

  lemma TwiceBelow(a: nat, b: nat)
    ensures a < b ==> 2 * Pow2(a) <= Pow2(b)
  {
    if a < b { Pow2Monotone(a + 1, b); }
  }

  lemma LgUnique(n: nat, k: nat)
    requires n > 0 && Pow2(k) <= n < 2 * Pow2(k)
    ensures Lg(n) == k
  {
    LgBounds(n);
    TwiceBelow(Lg(n), k);
    TwiceBelow(k, Lg(n));
  }

  /** LgFloor: halves the candidate range of the shift five times. */
  method LgFloor(n0: nat) returns (log: nat)
    requires 0 < n0 < 0x1_0000_0000
    ensures log == Lg(n0)
  {
    hide Pow2, Lg, ShiftRight;
    var n := n0;
    log := 0;
    var i := 4;
    Pow2Word();
    while i >= 0
      invariant -1 <= i <= 4 && 0 < n < Pow2(Pow2(i + 1)) && Pow2(log) * n <= n0 < Pow2(log) * (n + 1)
    {
      var shift := Pow2(i);
      var x := ShiftRight(n, Pow2(shift));
      Doubled(i);
      ShiftedSmall(n, shift, x);
      if x != 0 {
        ShiftedBounds(n0, log, n, shift, x);
        n := x;
        log := log + shift;
      }
      i := i - 1;
    }
    assert n == 1;
    LgUnique(n0, log);
  }

  /** `n >> shift`, where `p` is 1 << shift. */
  function ShiftRight(n: nat, p: nat): (x: nat)
    requires p > 0
    ensures x * p <= n < (x + 1) * p
  {
    QuotientBounds(n, p);
    n / p
  }

  lemma QuotientBounds(n: nat, p: nat)
    requires p > 0
    ensures n / p * p <= n < (n / p + 1) * p && n / p >= 0
  {
    assert n == n / p * p + n % p && (n / p + 1) * p == n / p * p + p;
    if n / p < 0 { ScaleUp(n / p + 1, 0, p); }
  }

  lemma Pow2Word()
    ensures Pow2(0) == 1 && Pow2(1) == 2 && Pow2(4) == 16 && Pow2(5) == 32 && Pow2(32) == 0x1_0000_0000
  {
    assert Pow2(2) == 4 && Pow2(4) == 16;
    Pow2Add(4, 4);
    assert Pow2(8) == 256;
    Pow2Add(8, 8);
    assert Pow2(16) == 65536;
    Pow2Add(16, 16);
  }

  lemma Doubled(i: nat)
    ensures Pow2(i + 1) == 2 * Pow2(i) && Pow2(Pow2(i + 1)) == Pow2(Pow2(i)) * Pow2(Pow2(i))
  {
    Pow2Add(Pow2(i), Pow2(i));
  }

  lemma ShiftedBounds(n0: nat, log: nat, n: nat, shift: nat, x: nat)
    requires Pow2(log) * n <= n0 < Pow2(log) * (n + 1) && x * Pow2(shift) <= n < (x + 1) * Pow2(shift)
    ensures Pow2(log + shift) * x <= n0 < Pow2(log + shift) * (x + 1)
  {
    hide Pow2;
    Pow2Add(log, shift);
    ProductBounds(n0, Pow2(log), Pow2(shift), n, x);
  }

  lemma ProductBounds(n0: nat, p: nat, q: nat, n: nat, x: nat)
    requires p * n <= n0 < p * (n + 1) && x * q <= n < (x + 1) * q
    ensures p * q * x <= n0 < p * q * (x + 1)
  {
    ScaleUp(x * q, n, p);
    ScaleUp(n + 1, (x + 1) * q, p);
    assert p * q * x == (x * q) * p && p * q * (x + 1) == ((x + 1) * q) * p;
  }

  lemma ShiftedSmall(n: nat, shift: nat, x: nat)
    requires n < Pow2(shift) * Pow2(shift) && x * Pow2(shift) <= n < (x + 1) * Pow2(shift)
    ensures x < Pow2(shift) && (x == 0 ==> n < Pow2(shift))
  {
    hide Pow2;
    var q := Pow2(shift);
    if x >= q { ScaleUp(q, x, q); }
  }

  lemma HighBit(size: nat)
    requires size >= 128
    ensures Lg(size) >= 7 && Pow2(Lg(size)) >= 128
  {
    Powers();
    LgBounds(size);
    if Lg(size) < 7 { Pow2Monotone(Lg(size) + 1, 7); }
    Pow2Monotone(7, Lg(size));
  }

  /** The alignment before it is capped at a page. */
  function Uncapped(size: nat): (a: nat)
    ensures a > 0
  {
    if size >= 128 then
      HighBit(size);
      Pow2(Lg(size)) / 8
    else if size >= MIN_ALIGN then MIN_ALIGN
    else ALIGNMENT
  }

  /** AlignmentForSize, with pages of 2^shift bytes. */
  function AlignmentFor(shift: nat, size: nat): (a: nat)
    ensures a > 0
  {
    var a := if size > MAX_SIZE then Pow2(shift) else Uncapped(size);
    if a > Pow2(shift) then Pow2(shift) else a
  }

  method AlignmentForSize(shift: nat, size: nat) returns (alignment: nat)
    requires shift >= 7
    ensures alignment == AlignmentFor(shift, size)
  {
    alignment := ALIGNMENT;
    if size > MAX_SIZE {
      alignment := Pow2(shift);
    } else if size >= 128 {
      var log := LgFloor(size);
      HighBit(size);
      alignment := Pow2(log) / 8;
    } else if size >= MIN_ALIGN {
      alignment := MIN_ALIGN;
    }
    if alignment > Pow2(shift) {
      alignment := Pow2(shift);
    }
  }

  /** The powers of two that matter here. */
  lemma Powers()
    ensures Pow2(3) == 8 && Pow2(4) == 16 && Pow2(7) == 128 && Pow2(10) == 1024 && Pow2(18) == 262144
  {
    Pow2Add(5, 5);
    Pow2Add(9, 9);
  }

  /** The alignment is a power of two; above 128 bytes it is an eighth of the power
      of two below the size, but at most a page. */
  lemma AlignmentPower(shift: nat, size: nat) returns (e: nat)
    requires shift >= 7 && 0 < size <= MAX_SIZE
    ensures AlignmentFor(shift, size) == Pow2(e)
    ensures size >= 128 ==> Lg(size) >= 7 && e == (if Lg(size) - 3 > shift then shift else Lg(size) - 3)
    ensures size < 128 ==> e == if size >= MIN_ALIGN then 4 else 3
  {
    Powers();
    Pow2Monotone(7, shift);
    if size >= 128 {
      LgBounds(size);
      if Lg(size) < 7 { Pow2Monotone(Lg(size) + 1, 7); }
      Pow2Add(Lg(size) - 3, 3);
      assert Uncapped(size) == Pow2(Lg(size) - 3);
      if Lg(size) - 3 > shift {
        Pow2Monotone(shift, Lg(size) - 3);
        Pow2Monotone(shift + 1, Lg(size) - 3);
        e := shift;
      } else {
        Pow2Monotone(Lg(size) - 3, shift);
        e := Lg(size) - 3;
      }
    } else {
      e := if size >= MIN_ALIGN then 4 else 3;
    }
  }

  /** The check in AlignmentForSize that matters for SSE types. */
  lemma AlignmentChecks(shift: nat, size: nat)
    requires shift >= 7 && 0 < size <= MAX_SIZE
    ensures size >= MIN_ALIGN ==> AlignmentFor(shift, size) >= MIN_ALIGN
    ensures size >= 1024 ==> AlignmentFor(shift, size) % 128 == 0
    ensures AlignmentFor(shift, size) % 8 == 0 && AlignmentFor(shift, size) > 0
  {
    var e := AlignmentPower(shift, size);
    Powers();
    Pow2Monotone(3, e);
    if size >= MIN_ALIGN { Pow2Monotone(4, e); }
    if size >= 1024 {
      LgBounds(size);
      if Lg(size) < 10 { Pow2Monotone(Lg(size) + 1, 10); }
      Pow2Monotone(7, e);
    }
  }

  /** Each size that the loop of Init reaches is a multiple of its alignment, and
      the last one is exactly MAX_SIZE. */
  lemma NextSize(shift: nat, size: nat)
    requires shift >= 7 && 0 < size <= MAX_SIZE && size % AlignmentFor(shift, size) == 0
    ensures var next := size + AlignmentFor(shift, size);
            size < MAX_SIZE ==> next <= MAX_SIZE && next % AlignmentFor(shift, next) == 0
  {
    hide Pow2, Lg, Uncapped, AlignmentFor;
    var e := AlignmentPower(shift, size);
    var next := size + Pow2(e);
    AfterMultiple(Pow2(e), size);
    Powers();
    if size < MAX_SIZE {
      if size >= 128 {
        NextAbove(shift, size, e);
      } else {
        var e1 := AlignmentPower(shift, next);
        if next == 128 { LgUnique(next, 7); Pow2Monotone(7, shift); }
      }
    }
  }

  /** Within [2^k, 2^(k+1)) the alignment stays, and 2^(k+1) itself is reached. */
  lemma NextAbove(shift: nat, size: nat, e: nat)
    requires shift >= 7 && 128 <= size < MAX_SIZE && size % Pow2(e) == 0 && AlignmentFor(shift, size) == Pow2(e)
    requires Lg(size) >= 7 && e == if Lg(size) - 3 > shift then shift else Lg(size) - 3
    ensures var next := size + Pow2(e); next <= MAX_SIZE && next % AlignmentFor(shift, next) == 0
  {
    hide Pow2, Lg, Uncapped, AlignmentFor;
    var k, next := Lg(size), size + Pow2(e);
    AfterMultiple(Pow2(e), size);
    Powers();
    LgBounds(size);
    if k >= 18 { Pow2Monotone(18, k); }
    Pow2Monotone(e, k + 1);
    Pow2Monotone(k + 1, 18);
    Pow2Succ(k);
    NextMultiple(Pow2(e), size, Pow2(k + 1));
    var e1 := AlignmentPower(shift, next);
    if next < Pow2(k + 1) {
      LgUnique(next, k);
    } else {
      Pow2Succ(k + 1);
      LgUnique(next, k + 1);
      Pow2Monotone(e1, k + 1);
    }
  }

  lemma Pow2Succ(k: nat)
    ensures Pow2(k + 1) == 2 * Pow2(k)
  {
  }

  // ----- objects to move at a time

  /** NumMoveSize, for a transfer limit that may be any integer. */
  function NumMove(limit: int, size: nat): int {
    if size == 0 then 0
    else
      var num := if 65536 / size < 2 then 2 else 65536 / size;
      if num > limit then limit else num
  }

  /** At least two objects and about 64 KB, but no more than the limit. */
  lemma NumMoveBounds(limit: int, size: nat)
    requires size > 0
    ensures NumMove(limit, size) <= limit
    ensures limit >= 2 ==> NumMove(limit, size) >= 2
    ensures NumMove(limit, size) > 2 ==> NumMove(limit, size) * size <= 65536
    ensures NumMove(limit, size) < limit ==> (NumMove(limit, size) + 1) * size > 65536
  {
    var q := 65536 / size;
    assert 65536 == q * size + 65536 % size;
    assert (q + 1) * size == q * size + size;
    if 2 < NumMove(limit, size) { ScaleUp(NumMove(limit, size), q, size); }
    ScaleUp(q + 1, (if q < 2 then 2 else q) + 1, size);
  }

  /** Division of C, which drops the fraction. */
  function Quarter(n: int): int { if n >= 0 then n / 4 else -(-n / 4) }

  /** The same value as an unsigned word, as it is compared with a size. */
  function AsWord(n: int): nat
    requires -0x8000_0000 <= n < 0x8000_0000
  {
    if n >= 0 then n else n + WORD
  }

  /** A limit of -4 or less makes the outer loop of Init never end: its condition
      holds for every span that the address space can hold. */
  lemma NegativeLimit(limit: int, size: nat, psize: nat)
    requires -0x8000_0000 <= limit <= -4 && 8 <= size && psize < WORD
    ensures psize / size < AsWord(Quarter(NumMove(limit, size)))
  {
    assert NumMove(limit, size) == limit;
    QuotientSmaller(psize, size);
  }

  lemma QuotientSmaller(x: nat, m: nat)
    requires m >= 8
    ensures x / m <= x / 8
  {
    assert x / m * m <= x;
    ScaleUp(8, m, x / m);
    assert x / m * m == m * (x / m) && 8 * (x / m) <= x;
  }

  // ----- the size of a span

  /** At most an eighth of the span is left over, and it holds enough objects. */
  ghost predicate GoodSpan(page: nat, limit: int, size: nat, psize: nat) {
    && size > 0 && psize > 0 && page > 0 && psize % page == 0
    && psize % size <= psize / 8
    && psize / size >= Quarter(NumMove(limit, size)) && psize / size >= 1
  }

  /** A span of `k` pages is good for the size, and no smaller one is. */
  ghost predicate LeastSpan(page: nat, limit: int, size: nat, k: nat) {
    GoodSpan(page, limit, size, k * page) && forall j: nat | 0 < j < k :: !GoodSpan(page, limit, size, j * page)
  }

  /** The two nested loops that choose the span of a class: the smallest good one. */
  method SpanSize(page: nat, limit: int, size: nat) returns (psize: nat)
    requires page > 0 && size > 0 && limit > -4
    ensures psize % page == 0 && LeastSpan(page, limit, size, psize / page)
  {
    var blocksToMove := Quarter(NumMove(limit, size));
    assert blocksToMove >= 0;
    ghost var enough := (blocksToMove + 8) * size;
    psize := 0;
    ghost var k := 0;
    while true
      invariant psize == k * page && psize < enough + page
      invariant forall j: nat | 0 < j <= k :: !GoodSpan(page, limit, size, j * page)
      decreases enough + page - psize
    {
      if psize >= enough { EnoughObjects(psize, size, blocksToMove); }
      ghost var before := psize;
      OneMorePage(k, page);
      psize, k := psize + page, k + 1;
      while psize % size > psize / 8
        invariant psize == k * page && 0 < psize && before < psize
        invariant psize < enough + page || psize == before + page
        invariant forall j: nat | 0 < j < k :: !GoodSpan(page, limit, size, j * page)
        decreases enough + page - psize
      {
        if psize >= enough { EnoughObjects(psize, size, blocksToMove); }
        OneMorePage(k, page);
        psize, k := psize + page, k + 1;
      }
      if psize / size >= blocksToMove {
        SomeObject(psize, size);
        Multiple(k, page);
        return;
      }
      if psize >= enough { EnoughObjects(psize, size, blocksToMove); }
    }
  }

  lemma OneMorePage(k: nat, page: nat)
    ensures (k + 1) * page == k * page + page
  {
  }

  lemma Multiple(k: nat, page: nat)
    requires page > 0
    ensures k * page % page == 0 && k * page / page == k
  {
    Remainder(k * page, page, k, 0);
  }

  /** A span of so many bytes meets both conditions. */
  lemma EnoughObjects(psize: nat, size: nat, blocks: nat)
    requires size > 0 && psize >= (blocks + 8) * size
    ensures psize / size >= blocks && psize % size <= psize / 8
  {
    assert psize == (psize / size) * size + psize % size;
    assert (psize / size + 1) * size == (psize / size) * size + size;
    if psize / size < blocks + 8 {
      ScaleUp(psize / size + 1, blocks + 8, size);
    }
    ScaleUp(8, blocks + 8, size);
  }

  lemma SomeObject(psize: nat, size: nat)
    requires size > 0 && psize > 0 && psize % size <= psize / 8
    ensures psize / size >= 1
  {
    assert psize == (psize / size) * size + psize % size;
    if psize < size { Remainder(psize, size, 0, psize); }
  }

  // ----- the table

  /** The entry of the array for a size: one for each 8 bytes up to 1024, then one
      for each 128. */
  function ClassIndex(s: nat): nat {
    if s <= MAX_SMALL_SIZE then (s + 7) / 8 else (s + 127 + 15360) / 128
  }

  lemma IndexInside(s: nat)
    requires s <= MAX_SIZE
    ensures ClassIndex(s) < CLASS_ARRAY_SIZE
  {
  }

  /** Sizes grow, and lie on the boundaries of the index. */
  ghost predicate Rising(sizes: seq<nat>) {
    && |sizes| > 0 && sizes[0] == 0
    && (forall c | 0 <= c < |sizes| :: sizes[c] % 8 == 0 && (sizes[c] > MAX_SMALL_SIZE ==> sizes[c] % 128 == 0) && sizes[c] <= MAX_SIZE)
    && (forall c, d | 0 <= c < d < |sizes| :: sizes[c] < sizes[d])
  }

  ghost predicate Good(page: nat, limit: int, sizes: seq<nat>, pages: seq<nat>) {
    |pages| == |sizes| && forall c | 0 < c < |sizes| :: GoodSpan(page, limit, sizes[c], pages[c] * page)
  }

  /** `c` is the smallest class whose objects hold `s` bytes. */
  ghost predicate BestClass(sizes: seq<nat>, c: nat, s: nat) {
    0 < c < |sizes| && s <= sizes[c] && forall d | 0 < d < c :: sizes[d] < s
  }

  lemma MultipleOfMultiple(x: nat, a: nat, b: nat)
    requires b > 0 && a > 0 && x % a == 0 && a % b == 0
    ensures x % b == 0
  {
    var q, r := x / a, a / b;
    assert x == q * a && a == r * b;
    assert x == (q * r) * b;
    Remainder(x, b, q * r, 0);
  }

  lemma OnBoundary(shift: nat, size: nat)
    requires shift >= 7 && 0 < size <= MAX_SIZE && size % AlignmentFor(shift, size) == 0
    ensures size % 8 == 0 && (size > MAX_SMALL_SIZE ==> size % 128 == 0)
  {
    AlignmentChecks(shift, size);
    MultipleOfMultiple(size, AlignmentFor(shift, size), 8);
    if size > MAX_SMALL_SIZE { MultipleOfMultiple(size, AlignmentFor(shift, size), 128); }
  }

  /** The sizes that the loop tries, from `size` on. */
  function Tried(shift: nat, size: nat): seq<nat>
    decreases if size > MAX_SIZE then 0 else MAX_SIZE + 1 - size
  {
    if size > MAX_SIZE then [] else [size] + Tried(shift, size + AlignmentFor(shift, size))
  }

  /** The objects of `size` bytes that a span of `k` pages gives. */
  function ObjectsIn(page: nat, k: nat, size: nat): nat {
    if size == 0 then 0 else k * page / size
  }

  /** Size `t` falls in class `c`: the spans of the class are those it needs, and
      give as many objects of the class as they would of this size. */
  ghost predicate FallsIn(page: nat, limit: int, sizes: seq<nat>, pages: seq<nat>, c: nat, t: nat) {
    && BestClass(sizes, c, t) && |pages| == |sizes| && 0 < t && LeastSpan(page, limit, t, pages[c])
    && ObjectsIn(page, pages[c], t) == ObjectsIn(page, pages[c], sizes[c])
  }

  /** The tried sizes `done` are grouped: each is in a class, no class has another
      last size, and no two neighbouring classes could be one. */
  ghost predicate Grouped(page: nat, limit: int, sizes: seq<nat>, pages: seq<nat>, done: seq<nat>) {
    && |pages| == |sizes| > 0
    && (forall t | t in done :: HasClass(page, limit, sizes, pages, t))
    && (forall c | 0 < c < |sizes| :: sizes[c] in done)
    && (forall c | 0 < c < |sizes| - 1 :: Apart(page, sizes, pages, c))
  }

  ghost predicate HasClass(page: nat, limit: int, sizes: seq<nat>, pages: seq<nat>, t: nat) {
    exists c: nat :: FallsIn(page, limit, sizes, pages, c, t)
  }

  predicate Apart(page: nat, sizes: seq<nat>, pages: seq<nat>, c: int)
    requires 0 < c < |sizes| - 1 && |pages| == |sizes|
  {
    pages[c] != pages[c + 1] || ObjectsIn(page, pages[c], sizes[c]) != ObjectsIn(page, pages[c + 1], sizes[c + 1])
  }

  /** The last class grows by a size that costs no object. */
  lemma GroupMerged(page: nat, limit: int, sizes: seq<nat>, pages: seq<nat>, done: seq<nat>, size: nat)
    requires Rising(sizes) && Grouped(page, limit, sizes, pages, done)
    requires var last := |sizes| - 1;
             last > 0 && sizes[last] < size && LeastSpan(page, limit, size, pages[last])
             && ObjectsIn(page, pages[last], size) == ObjectsIn(page, pages[last], sizes[last])
    ensures Grouped(page, limit, sizes[|sizes| - 1 := size], pages, done + [size])
  {
    hide LeastSpan, ObjectsIn, HasClass, Apart, Rising;
    var last := |sizes| - 1;
    var sizes1 := sizes[last := size];
    forall t | t in done ensures HasClass(page, limit, sizes1, pages, t) { MergedFalls(page, limit, sizes, pages, size, t); }
    MergedLast(page, limit, sizes, pages, size);
    forall c | 0 < c < |sizes1| ensures sizes1[c] in done + [size] { assert c < last ==> sizes1[c] == sizes[c]; }
    forall c | 0 < c < |sizes1| - 1 ensures Apart(page, sizes1, pages, c) {
      assert Apart(page, sizes, pages, c);
      MergedApart(page, sizes, pages, size, c);
    }
  }

  lemma MergedFalls(page: nat, limit: int, sizes: seq<nat>, pages: seq<nat>, size: nat, t: nat)
    requires Rising(sizes) && |pages| == |sizes| > 1 && sizes[|sizes| - 1] < size && HasClass(page, limit, sizes, pages, t)
    requires var last := |sizes| - 1; ObjectsIn(page, pages[last], size) == ObjectsIn(page, pages[last], sizes[last])
    ensures HasClass(page, limit, sizes[|sizes| - 1 := size], pages, t)
  {
    hide LeastSpan, ObjectsIn;
    var c: nat :| FallsIn(page, limit, sizes, pages, c, t);
    assert FallsIn(page, limit, sizes[|sizes| - 1 := size], pages, c, t);
  }

  lemma MergedLast(page: nat, limit: int, sizes: seq<nat>, pages: seq<nat>, size: nat)
    requires Rising(sizes) && |pages| == |sizes| > 1 && sizes[|sizes| - 1] < size && LeastSpan(page, limit, size, pages[|sizes| - 1])
    ensures HasClass(page, limit, sizes[|sizes| - 1 := size], pages, size)
  {
    hide LeastSpan, ObjectsIn;
    assert FallsIn(page, limit, sizes[|sizes| - 1 := size], pages, |sizes| - 1, size);
  }

  lemma MergedApart(page: nat, sizes: seq<nat>, pages: seq<nat>, size: nat, c: int)
    requires 0 < c < |sizes| - 1 && |pages| == |sizes| && Apart(page, sizes, pages, c)
    requires var last := |sizes| - 1; ObjectsIn(page, pages[last], size) == ObjectsIn(page, pages[last], sizes[last])
    ensures Apart(page, sizes[|sizes| - 1 := size], pages, c)
  {
    hide ObjectsIn;
  }

  /** A size that would cost objects starts a class. */
  lemma GroupAdded(page: nat, limit: int, sizes: seq<nat>, pages: seq<nat>, done: seq<nat>, size: nat, k: nat)
    requires Rising(sizes) && Grouped(page, limit, sizes, pages, done)
    requires sizes[|sizes| - 1] < size && LeastSpan(page, limit, size, k)
    requires var last := |sizes| - 1;
             last > 0 && k == pages[last] ==> ObjectsIn(page, k, size) != ObjectsIn(page, k, sizes[last])
    ensures Grouped(page, limit, sizes + [size], pages + [k], done + [size])
  {
    hide LeastSpan, ObjectsIn, HasClass, Apart, Rising;
    var sizes1, pages1 := sizes + [size], pages + [k];
    forall t | t in done ensures HasClass(page, limit, sizes1, pages1, t) { AddedFalls(page, limit, sizes, pages, size, k, t); }
    AddedLast(page, limit, sizes, pages, size, k);
    forall c | 0 < c < |sizes1| ensures sizes1[c] in done + [size] { assert c < |sizes| ==> sizes1[c] == sizes[c]; }
    forall c | 0 < c < |sizes1| - 1 ensures Apart(page, sizes1, pages1, c) {
      if c < |sizes| - 1 { assert Apart(page, sizes, pages, c); }
      AddedApart(page, sizes, pages, size, k, c);
    }
  }

  lemma AddedFalls(page: nat, limit: int, sizes: seq<nat>, pages: seq<nat>, size: nat, k: nat, t: nat)
    requires |pages| == |sizes| && HasClass(page, limit, sizes, pages, t)
    ensures HasClass(page, limit, sizes + [size], pages + [k], t)
  {
    hide LeastSpan, ObjectsIn;
    var c: nat :| FallsIn(page, limit, sizes, pages, c, t);
    assert FallsIn(page, limit, sizes + [size], pages + [k], c, t);
  }

  lemma AddedLast(page: nat, limit: int, sizes: seq<nat>, pages: seq<nat>, size: nat, k: nat)
    requires Rising(sizes) && |pages| == |sizes| && sizes[|sizes| - 1] < size && LeastSpan(page, limit, size, k)
    ensures HasClass(page, limit, sizes + [size], pages + [k], size)
  {
    hide LeastSpan, ObjectsIn;
    assert FallsIn(page, limit, sizes + [size], pages + [k], |sizes|, size);
  }

  lemma AddedApart(page: nat, sizes: seq<nat>, pages: seq<nat>, size: nat, k: nat, c: int)
    requires 0 < c < |sizes| == |pages|
    requires if c < |sizes| - 1 then Apart(page, sizes, pages, c)
             else k == pages[c] ==> ObjectsIn(page, k, size) != ObjectsIn(page, k, sizes[c])
    ensures Apart(page, sizes + [size], pages + [k], c)
  {
    hide ObjectsIn;
  }

  // ----- there is only one such grouping

  lemma LeastUnique(page: nat, limit: int, size: nat, j: nat, k: nat)
    requires LeastSpan(page, limit, size, j) && LeastSpan(page, limit, size, k)
    ensures j == k
  {
  }

  /** The next larger member. */
  lemma {:induction false} NextIn(done: seq<nat>, x: nat, y: nat) returns (t: nat)
    requires y in done && x < y
    ensures t in done && x < t <= y && forall u | u in done :: u <= x || t <= u
    decreases y
  {
    if u :| u in done && x < u < y {
      t := NextIn(done, x, u);
    } else {
      t := y;
    }
  }

  lemma FallsHere(page: nat, limit: int, sizes: seq<nat>, pages: seq<nat>, c: nat, t: nat)
    requires Rising(sizes) && HasClass(page, limit, sizes, pages, t) && 0 < c < |sizes| && sizes[c - 1] < t <= sizes[c]
    ensures FallsIn(page, limit, sizes, pages, c, t)
  {
    hide LeastSpan, ObjectsIn;
    var d: nat :| FallsIn(page, limit, sizes, pages, d, t);
  }

  /** A class of one grouping does not end before that of another that begins with it. */
  lemma EndsNoEarlier(page: nat, limit: int, sizes: seq<nat>, pages: seq<nat>, sizes1: seq<nat>, pages1: seq<nat>, done: seq<nat>, c: nat)
    requires Rising(sizes) && Rising(sizes1)
    requires Grouped(page, limit, sizes, pages, done) && Grouped(page, limit, sizes1, pages1, done)
    requires 0 < c < |sizes| && c < |sizes1| && sizes[c - 1] == sizes1[c - 1]
    ensures sizes[c] >= sizes1[c]
  {
    hide LeastSpan, ObjectsIn, HasClass, FallsIn;
    if sizes[c] < sizes1[c] {
      var t := NextIn(done, sizes[c], sizes1[c]);
      LaterClass(page, limit, sizes, pages, done, c, t);
      FallsHere(page, limit, sizes, pages, c, sizes[c]);
      FallsHere(page, limit, sizes, pages, c + 1, t);
      FallsHere(page, limit, sizes1, pages1, c, sizes[c]);
      FallsHere(page, limit, sizes1, pages1, c, t);
      NotApart(page, limit, sizes, pages, sizes1, pages1, c, t);
      assert false;
    }
  }

  lemma LaterClass(page: nat, limit: int, sizes: seq<nat>, pages: seq<nat>, done: seq<nat>, c: nat, t: nat)
    requires Rising(sizes) && Grouped(page, limit, sizes, pages, done) && 0 < c < |sizes|
    requires t in done && sizes[c] < t && forall u | u in done :: u <= sizes[c] || t <= u
    ensures c + 1 < |sizes| && t <= sizes[c + 1]
  {
    hide LeastSpan, ObjectsIn;
    var d: nat :| FallsIn(page, limit, sizes, pages, d, t);
    assert sizes[c + 1] in done && sizes[c] < sizes[c + 1];
  }

  lemma NotApart(page: nat, limit: int, sizes: seq<nat>, pages: seq<nat>, sizes1: seq<nat>, pages1: seq<nat>, c: nat, t: nat)
    requires 0 < c < |sizes| - 1 && c < |sizes1|
    requires FallsIn(page, limit, sizes, pages, c, sizes[c]) && FallsIn(page, limit, sizes, pages, c + 1, t)
    requires FallsIn(page, limit, sizes1, pages1, c, sizes[c]) && FallsIn(page, limit, sizes1, pages1, c, t)
    ensures !Apart(page, sizes, pages, c)
  {
    hide LeastSpan, ObjectsIn;
    LeastUnique(page, limit, sizes[c], pages[c], pages1[c]);
    LeastUnique(page, limit, t, pages[c + 1], pages1[c]);
  }

  /** The tried sizes and the rule for joining fix all classes. */
  lemma {:induction false} GroupingUnique(page: nat, limit: int, sizes: seq<nat>, pages: seq<nat>, sizes1: seq<nat>, pages1: seq<nat>,
                                          done: seq<nat>, c: nat)
    requires Rising(sizes) && Rising(sizes1)
    requires Grouped(page, limit, sizes, pages, done) && Grouped(page, limit, sizes1, pages1, done)
    requires 0 < c < |sizes|
    ensures c < |sizes1| && sizes[c] == sizes1[c] && pages[c] == pages1[c]
  {
    hide LeastSpan, ObjectsIn, HasClass, FallsIn;
    if c > 1 { GroupingUnique(page, limit, sizes, pages, sizes1, pages1, done, c - 1); }
    assert sizes[c] in done && HasClass(page, limit, sizes1, pages1, sizes[c]);
    LastOneLater(page, limit, sizes1, pages1, c, sizes[c]);
    EndsNoEarlier(page, limit, sizes, pages, sizes1, pages1, done, c);
    EndsNoEarlier(page, limit, sizes1, pages1, sizes, pages, done, c);
    FallsHere(page, limit, sizes, pages, c, sizes[c]);
    FallsHere(page, limit, sizes1, pages1, c, sizes[c]);
    SamePages(page, limit, sizes, pages, sizes1, pages1, c, sizes[c]);
  }

  lemma LastOneLater(page: nat, limit: int, sizes: seq<nat>, pages: seq<nat>, c: nat, t: nat)
    requires Rising(sizes) && HasClass(page, limit, sizes, pages, t) && 0 < c <= |sizes| && sizes[c - 1] < t
    ensures c < |sizes|
  {
    hide LeastSpan, ObjectsIn;
    var d: nat :| FallsIn(page, limit, sizes, pages, d, t);
  }

  lemma SamePages(page: nat, limit: int, sizes: seq<nat>, pages: seq<nat>, sizes1: seq<nat>, pages1: seq<nat>, c: nat, t: nat)
    requires FallsIn(page, limit, sizes, pages, c, t) && FallsIn(page, limit, sizes1, pages1, c, t)
    ensures pages[c] == pages1[c]
  {
    hide LeastSpan, ObjectsIn;
    LeastUnique(page, limit, t, pages[c], pages1[c]);
  }

  /** The first loop of Init: the sizes and spans of the classes. A size joins the
      class before it when that costs no object. */
  method ComputeClasses(shift: nat, limit: int) returns (sizes: seq<nat>, pages: seq<nat>)
    requires shift >= 7 && limit > -4
    ensures Rising(sizes) && |sizes| > 1 && sizes[|sizes| - 1] == MAX_SIZE && Good(Pow2(shift), limit, sizes, pages)
    ensures Grouped(Pow2(shift), limit, sizes, pages, Tried(shift, ALIGNMENT))
  {
    hide AlignmentFor, Pow2, GoodSpan, LeastSpan, Grouped, Tried;
    var page := Pow2(shift);
    sizes, pages := [0], [0];
    var size := ALIGNMENT;
    ghost var done: seq<nat> := [];
    NothingGrouped(page, limit);
    FirstSize(shift);
    assert done + Tried(shift, size) == Tried(shift, ALIGNMENT);
    while size <= MAX_SIZE
      invariant 0 < size && Rising(sizes) && Good(page, limit, sizes, pages) && sizes[|sizes| - 1] < size
      invariant size <= MAX_SIZE ==> size % AlignmentFor(shift, size) == 0
      invariant size > MAX_SIZE ==> |sizes| > 1 && sizes[|sizes| - 1] == MAX_SIZE
      invariant Grouped(page, limit, sizes, pages, done) && done + Tried(shift, size) == Tried(shift, ALIGNMENT)
      decreases MAX_SIZE + 1 - size
    {
      var alignment := AlignmentForSize(shift, size);
      OnBoundary(shift, size);
      NextSize(shift, size);
      var psize := SpanSize(page, limit, size);
      var myPages := psize / page;
      LeastGood(page, limit, size, myPages);
      TriedNext(shift, size, done);
      var last := |sizes| - 1;
      if last > 0 && myPages == pages[last] && myPages * page / size == pages[last] * page / sizes[last] {
        GroupMerged(page, limit, sizes, pages, done, size);
        sizes := sizes[last := size];
      } else {
        GroupAdded(page, limit, sizes, pages, done, size, myPages);
        sizes, pages := sizes + [size], pages + [myPages];
      }
      done := done + [size];
      size := size + alignment;
    }
    TriedAll(shift, size, done);
  }

  lemma TriedNext(shift: nat, size: nat, done: seq<nat>)
    requires size <= MAX_SIZE
    ensures done + [size] + Tried(shift, size + AlignmentFor(shift, size)) == done + Tried(shift, size)
  {
  }

  lemma TriedAll(shift: nat, size: nat, done: seq<nat>)
    requires size > MAX_SIZE
    ensures done + Tried(shift, size) == done
  {
  }

  lemma NothingGrouped(page: nat, limit: int)
    ensures Grouped(page, limit, [0], [0], [])
  {
  }

  lemma LeastGood(page: nat, limit: int, size: nat, k: nat)
    requires LeastSpan(page, limit, size, k)
    ensures GoodSpan(page, limit, size, k * page)
  {
  }

  lemma FirstSize(shift: nat)
    requires shift >= 7
    ensures ALIGNMENT % AlignmentFor(shift, ALIGNMENT) == 0
  {
    Powers();
    Pow2Monotone(7, shift);
  }

  lemma ClassSize(sizes: seq<nat>, c: nat)
    requires Rising(sizes) && 0 < c < |sizes|
    ensures sizes[c] <= MAX_SIZE && sizes[c] % 8 == 0 && sizes[c - 1] % 8 == 0 && sizes[c - 1] < sizes[c]
  {
  }

  /** A size above the class before, and not above `c`. */
  lemma BestHere(sizes: seq<nat>, c: nat, s: nat)
    requires Rising(sizes) && 0 < c < |sizes| && s <= sizes[c] && (c > 1 ==> sizes[c - 1] < s)
    ensures BestClass(sizes, c, s)
  {
  }

  /** A boundary below `s` is below every size that shares its entry. */
  lemma SameSide(s: nat, t: nat, b: nat)
    requires t <= s && ClassIndex(t) == ClassIndex(s) && b < s
    requires b % 8 == 0 && (b > MAX_SMALL_SIZE ==> b % 128 == 0)
    ensures b < t
  {
    if s <= MAX_SMALL_SIZE {
      Group(s + 7, t + 7, b, 8);
    } else {
      assert t > MAX_SMALL_SIZE;
      if b > MAX_SMALL_SIZE { Group(s + 127 + 15360, t + 127 + 15360, b + 15360, 128); }
    }
  }

  lemma Group(s: nat, t: nat, b: nat, m: nat)
    requires m == 8 || m == 128
    requires s / m == t / m && b % m == 0 && b < s - (m - 1)
    ensures b < t - (m - 1)
  {
    var q, i := b / m, s / m;
    assert b == m * q && m * i <= t && s < m * i + m;
  }

  /** Sizes that share an entry of the array need the same class. */
  lemma SameEntry(sizes: seq<nat>, c: nat, s: nat, t: nat)
    requires Rising(sizes) && BestClass(sizes, c, s) && t <= s <= MAX_SIZE && ClassIndex(t) == ClassIndex(s) && s % 8 == 0
    ensures BestClass(sizes, c, t)
  {
    hide ClassIndex;
    forall d | 0 < d < c ensures sizes[d] < t {
      SameSide(s, t, sizes[d]);
    }
  }

  ghost predicate EntryRight(entries: seq<nat>, sizes: seq<nat>, t: nat) {
    ClassIndex(t) < |entries| && BestClass(sizes, entries[ClassIndex(t)], t)
  }

  /** The entries for multiples of 8 below `s` are right. */
  ghost predicate FilledTo(entries: seq<nat>, sizes: seq<nat>, s: nat) {
    forall t: nat | t < s && t % 8 == 0 && t <= MAX_SIZE :: EntryRight(entries, sizes, t)
  }

  /** A write for `s` may hit an entry that was written before, for a size that
      needs the same class. */
  lemma WriteEntry(entries: seq<nat>, sizes: seq<nat>, c: nat, s: nat)
    requires Rising(sizes) && BestClass(sizes, c, s) && s <= MAX_SIZE && s % 8 == 0 && FilledTo(entries, sizes, s)
    requires ClassIndex(s) < |entries|
    ensures FilledTo(entries[ClassIndex(s) := c], sizes, s + 8)
  {
    hide BestClass, ClassIndex, Rising;
    forall t: nat | t < s + 8 && t % 8 == 0 && t <= MAX_SIZE ensures EntryRight(entries[ClassIndex(s) := c], sizes, t) {
      if t < s { assert EntryRight(entries, sizes, t); }
      if ClassIndex(t) == ClassIndex(s) { SameEntry(sizes, c, s, t); }
    }
  }

  /** Sizes that are not multiples of 8 share the entry of the next multiple. */
  lemma AnySize(entries: seq<nat>, sizes: seq<nat>, next: nat, s: nat)
    requires Rising(sizes) && next > MAX_SIZE && FilledTo(entries, sizes, next) && s <= MAX_SIZE
    ensures EntryRight(entries, sizes, s)
  {
    hide BestClass, Rising, EntryRight, ClassIndex;
    var r := NextEight(s);
    EntryFacts(entries, sizes, r);
    SameEntry(sizes, entries[ClassIndex(r)], r, s);
    EntryFacts(entries, sizes, s);
  }

  lemma NextEight(s: nat) returns (r: nat)
    requires s <= MAX_SIZE
    ensures s <= r <= MAX_SIZE && r % 8 == 0 && ClassIndex(r) == ClassIndex(s)
  {
    r := (s + 7) / 8 * 8;
  }

  lemma EntryFacts(entries: seq<nat>, sizes: seq<nat>, t: nat)
    ensures EntryRight(entries, sizes, t) <==> ClassIndex(t) < |entries| && BestClass(sizes, entries[ClassIndex(t)], t)
  {
  }

  class SizeMap {
    const classArray: array<nat>
    var classToSize: seq<nat>
    var classToPages: seq<nat>
    var numObjectsToMove: seq<int>

    constructor ()
      ensures fresh(classArray) && classArray.Length == CLASS_ARRAY_SIZE
    {
      classArray := new nat[CLASS_ARRAY_SIZE];
      classToSize, classToPages, numObjectsToMove := [], [], [];
    }

    /** Init; false stands for the crash when the number of classes is wrong. */
    method Init(shift: nat, limit: int, numClasses: nat) returns (ok: bool)
      requires classArray.Length == CLASS_ARRAY_SIZE && shift >= 7 && limit > -4 && 1 < numClasses <= 256
      modifies this, classArray
      ensures ok <==> |classToSize| == numClasses
      ensures Rising(classToSize) && Good(Pow2(shift), limit, classToSize, classToPages)
      ensures Grouped(Pow2(shift), limit, classToSize, classToPages, Tried(shift, ALIGNMENT))
      ensures ok ==> forall s: nat | s <= MAX_SIZE :: BestClass(classToSize, classArray[ClassIndex(s)], s)
      ensures ok ==> |numObjectsToMove| == numClasses &&
                     forall c | 0 < c < numClasses :: numObjectsToMove[c] == NumMove(limit, classToSize[c])
    {
      hide Pow2, Good, NumMove, Rising, BestClass, Grouped, Tried;
      classToSize, classToPages := ComputeClasses(shift, limit);
      if |classToSize| != numClasses {
        return false;
      }
      FillArray();
      var checked := DoubleCheck();
      assert checked;
      numObjectsToMove := [0];
      var cl := 1;
      while cl < numClasses
        invariant |numObjectsToMove| == cl <= numClasses == |classToSize|
        invariant forall c | 0 < c < cl :: numObjectsToMove[c] == NumMove(limit, classToSize[c])
        modifies `numObjectsToMove
      {
        numObjectsToMove := numObjectsToMove + [NumMove(limit, classToSize[cl])];
        cl := cl + 1;
      }
      return true;
    }

    /** The loop that fills the array, a class at a time. */
    method FillArray()
      requires classArray.Length == CLASS_ARRAY_SIZE && Rising(classToSize) && |classToSize| > 1
      requires classToSize[|classToSize| - 1] == MAX_SIZE
      modifies classArray
      ensures forall s: nat | s <= MAX_SIZE :: BestClass(classToSize, classArray[ClassIndex(s)], s)
    {
      hide BestClass, ClassIndex, EntryRight, Rising;
      var nextSize := 0;
      var c := 1;
      while c < |classToSize|
        invariant 1 <= c <= |classToSize| && nextSize == if c == 1 then 0 else classToSize[c - 1] + 8
        invariant FilledTo(classArray[..], classToSize, nextSize)
      {
        FillClass(c, nextSize);
        nextSize := classToSize[c] + ALIGNMENT;
        c := c + 1;
      }
      forall s: nat | s <= MAX_SIZE ensures ClassIndex(s) < CLASS_ARRAY_SIZE { IndexInside(s); }
      forall s: nat | s <= MAX_SIZE ensures BestClass(classToSize, classArray[ClassIndex(s)], s) {
        AnySize(classArray[..], classToSize, nextSize, s);
        EntryFacts(classArray[..], classToSize, s);
        assert classArray[..][ClassIndex(s)] == classArray[ClassIndex(s)];
      }
    }

    /** The inner loop: the sizes above the class before, up to this class. */
    method FillClass(c: nat, nextSize: nat)
      requires classArray.Length == CLASS_ARRAY_SIZE && Rising(classToSize) && 0 < c < |classToSize|
      requires nextSize == (if c == 1 then 0 else classToSize[c - 1] + 8) && FilledTo(classArray[..], classToSize, nextSize)
      modifies classArray
      ensures FilledTo(classArray[..], classToSize, classToSize[c] + 8)
    {
      hide BestClass, ClassIndex, EntryRight, Rising, FilledTo;
      var s := nextSize;
      ClassSize(classToSize, c);
      while s <= classToSize[c]
        invariant nextSize <= s <= classToSize[c] + 8 && s % 8 == 0 && FilledTo(classArray[..], classToSize, s)
        decreases classToSize[c] + 8 - s
      {
        FillEntry(c, s);
        EightMore(s);
        s := s + ALIGNMENT;
      }
    }

    lemma EightMore(s: nat)
      requires s % 8 == 0
      ensures (s + 8) % 8 == 0
    {
    }

    method FillEntry(c: nat, s: nat)
      requires classArray.Length == CLASS_ARRAY_SIZE && Rising(classToSize) && 0 < c < |classToSize|
      requires s % 8 == 0 && s <= classToSize[c] && (c > 1 ==> classToSize[c - 1] < s) && FilledTo(classArray[..], classToSize, s)
      modifies classArray
      ensures FilledTo(classArray[..], classToSize, s + 8)
    {
      hide BestClass, ClassIndex, EntryRight, Rising, FilledTo;
      ClassSize(classToSize, c);
      BestHere(classToSize, c, s);
      IndexInside(s);
      ghost var entries := classArray[..];
      WriteEntry(entries, classToSize, c, s);
      classArray[ClassIndex(s)] := c;
      assert classArray[..] == entries[ClassIndex(s) := c];
    }

    /** SizeClass. */
    method SizeClass(size: nat) returns (c: nat)
      requires classArray.Length == CLASS_ARRAY_SIZE && size <= MAX_SIZE
      ensures c == classArray[ClassIndex(size)]
    {
      c := classArray[ClassIndex(size)];
    }

    /** The double check at the end of Init never finds a fault. */
    method DoubleCheck() returns (ok: bool)
      requires classArray.Length == CLASS_ARRAY_SIZE && Rising(classToSize)
      requires forall s: nat | s <= MAX_SIZE :: BestClass(classToSize, classArray[ClassIndex(s)], s)
      ensures ok
    {
      var size := 0;
      while size <= MAX_SIZE
        decreases MAX_SIZE + 1 - size
      {
        var sc := SizeClass(size);
        assert BestClass(classToSize, sc, size);
        if sc <= 0 || sc >= |classToSize| {
          return false;
        }
        if sc > 1 && size <= classToSize[sc - 1] {
          return false;
        }
        if size > classToSize[sc] || classToSize[sc] == 0 {
          return false;
        }
        if size <= MAX_SMALL_SIZE {
          size := size + 8;
        } else {
          size := size + 128;
        }
      }
      return true;
    }
  }

  /** With pages of 8192 bytes, the spans of every class hold an object and a
      quarter of a transfer. Objects can be moved, as CentralFreeList::Init demands,
      exactly if the limit is positive. */
  lemma ClassesUsable(limit: int, sizes: seq<nat>, pages: seq<nat>, c: nat)
    requires Rising(sizes) && Good(8192, limit, sizes, pages) && 0 < c < |sizes|
    ensures NumMove(limit, sizes[c]) > 0 <==> limit > 0
    ensures limit > 0 ==>
              var i := CentralState.ClassInfo(sizes[c], pages[c], NumMove(limit, sizes[c]));
              CentralState.Movable(c, i) && CentralState.Capacity(i) > 0 && CentralState.Capacity(i) >= i.batch / 4
  {
    assert GoodSpan(8192, limit, sizes[c], pages[c] * 8192);
  }
}
