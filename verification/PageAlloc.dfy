/**
 The page allocator in front of the buddy lists of one zone: per-CPU caches of order-0 pages,
 allocation and freeing of blocks, the boot-time range splitter and the page counters
 (kernel/mm/page_alloc.c).
 */
module PageAlloc {
  import opened Dyadic
  import opened FreeBlocks
  import opened Lists
  import opened BuddyZone
  import opened Options

  /** struct per_cpu_pages */
  datatype PerCpuPages = PerCpuPages(count: int, high: int, batch: int, lists: seq<nat>)

  /**
   Who has a page: nobody yet (it was never freed to the zone), the buddy lists, a per-CPU
   list, a caller, or a running operation that has it off every list.  A page that fails a
   state check is dropped and stays Leaked.
   */
  datatype Owner = Unmanaged | InBuddy | InPcp(cpu: nat) | Allocated | InFlight | Leaked

  type Ledger = nat -> Owner

  /** The ledger after every page of s changes hands to o. */
  function Give(owner: Ledger, s: set<nat>, o: Owner): Ledger { (x: nat) => if x in s then o else owner(x) }

  /** The same, as a relation between two ledgers. */
  ghost predicate Moved(owner: Ledger, owner': Ledger, s: set<nat>, o: Owner) {
    forall x :: owner'(x) == if x in s then o else owner(x)
  }

  // ---------------------------------------------------------------------------
  // Sizing the per-CPU caches

  const PAGE_SIZE: nat := 4096

  ghost predicate IsPow2(n: nat) { exists k: nat :: n == Pow2(k) }

  lemma DoublePow2(n: nat)
    requires IsPow2(n)
    ensures IsPow2(2 * n)
  {
    var k: nat :| n == Pow2(k);
    assert 2 * n == Pow2(k + 1);
  }

  lemma Pow2Below96(n: nat)
    requires IsPow2(n) && n <= 96
    ensures n <= 64
  {
    var k: nat :| n == Pow2(k);
    assert Pow2(7) == 2 * Pow2(6) && Pow2(6) == 2 * Pow2(5) && Pow2(5) == 2 * Pow2(4);
    assert Pow2(4) == 2 * Pow2(3) && Pow2(3) == 8;
    if k < 7 {
      Pow2Monotone(k, 6);
    } else {
      Pow2Monotone(7, k);
    }
  }

  /** rounddown_pow_of_two */
  function RounddownPowOfTwo(n: nat): (r: nat)
    requires n >= 1
    ensures IsPow2(r) && r <= n < 2 * r
  {
    if n == 1 then assert Pow2(0) == 1; 1
    else
      var h := RounddownPowOfTwo(n / 2);
      DoublePow2(h);
      2 * h
  }

  /** A 4096th of the zone, from 1 to 64. */
  function Share(managed: nat): nat {
    if managed < 4096 then 1 else if managed >= 64 * 4096 then 64 else managed / 4096
  }

  lemma ShareIs(managed: nat, b0: nat, b1: nat, b2: nat, b3: nat)
    requires b0 == managed / 1024 && b1 == (if b0 * PAGE_SIZE > 1024 * 1024 then 1024 * 1024 / PAGE_SIZE else b0)
    requires b2 == b1 / 4 && b3 == if b2 < 1 then 1 else b2
    ensures b3 == Share(managed) && (managed < 8192 <==> b3 == 1)
  {
    assert b0 / 4 == managed / 4096;
  }

  /** zone_batchsize: the largest 2^n - 1 for which 2^n is no more than one and a half times that share. */
  function ZoneBatchsize(managed: nat): (batch: nat)
    ensures batch <= 63 && IsPow2(batch + 1)
    ensures batch + 1 <= Share(managed) + Share(managed) / 2 < 2 * (batch + 1)
    ensures batch == 0 <==> managed < 8192
  {
    var b0 := managed / 1024;
    var b1 := if b0 * PAGE_SIZE > 1024 * 1024 then 1024 * 1024 / PAGE_SIZE else b0;
    var b2 := b1 / 4;
    var b3 := if b2 < 1 then 1 else b2;
    ShareIs(managed, b0, b1, b2, b3);
    var r := RounddownPowOfTwo(b3 + b3 / 2);
    Pow2Below96(r);
    r - 1
  }

  /** A list that holds a page and has reached high holds at least a batch. */
  predicate LimitsSafe(p: PerCpuPages) { p.batch >= 1 && (p.batch <= p.high || p.batch == 1) }

  /** The rule of the source: batch is never higher than high. */
  predicate BatchWithinHigh(p: PerCpuPages) { p.batch <= p.high }

  /**
   pageset_set_batch and pageset_update: the three stores in order.  After each of them the limits are safe; the rule
   that batch is never higher than high is not kept by all of them.
   */
  method PagesetSetBatch(p: PerCpuPages, batch: nat) returns (s1: PerCpuPages, s2: PerCpuPages, s3: PerCpuPages)
    ensures s3 == p.(high := 6 * batch, batch := if batch > 1 then batch else 1)
    ensures LimitsSafe(s1) && LimitsSafe(s2) && LimitsSafe(s3)
    ensures BatchWithinHigh(s1) <==> p.high >= 1
    ensures BatchWithinHigh(s2) <==> batch >= 1
    ensures BatchWithinHigh(s3) <==> batch >= 1
  {
    s1 := p.(batch := 1);
    s2 := s1.(high := 6 * batch);
    s3 := s2.(batch := if batch > 1 then batch else 1);
  }

  /**
   zone_pageset_init: the rule is broken after the first store, and stays broken exactly in a zone of less than 8192
   pages.  A cache of such a zone has high 0 and batch 1, and gives every page back at once.
   */
  method ZonePagesetInit(managed: nat) returns (s1: PerCpuPages, s2: PerCpuPages, s3: PerCpuPages)
    ensures LimitsSafe(s1) && LimitsSafe(s2) && LimitsSafe(s3)
    ensures !BatchWithinHigh(s1) && (BatchWithinHigh(s2) <==> managed >= 8192) && (BatchWithinHigh(s3) <==> managed >= 8192)
    ensures s3.count == 0 && s3.lists == []
    ensures if managed < 8192 then s3.high == 0 && s3.batch == 1 else s3.high == 6 * s3.batch
  {
    var batch := ZoneBatchsize(managed);
    s1, s2, s3 := PagesetSetBatch(PerCpuPages(0, 0, 0, []), batch);
  }

  // ---------------------------------------------------------------------------
  // The ledger invariant

  ghost predicate PcpOk(p: PerCpuPages) { p.count == |p.lists| && NoDup(p.lists) && LimitsSafe(p) }

  ghost predicate PcpsOk(pageset: seq<PerCpuPages>) { forall c | 0 <= c < |pageset| :: PcpOk(pageset[c]) }

  /** The ledger names exactly the pages on each list and in each allocated block. */
  ghost predicate Agrees(owner: Ledger, pageset: seq<PerCpuPages>, free: set<nat>, inUse: set<nat>, managed: set<nat>) {
    && (forall x :: x in managed <==> owner(x) != Unmanaged)
    && (forall x :: x in free <==> owner(x) == InBuddy)
    && (forall x :: x in inUse <==> owner(x) == Allocated)
    && (forall c, x | 0 <= c < |pageset| :: x in pageset[c].lists <==> owner(x) == InPcp(c))
    && (forall x :: owner(x).InPcp? ==> owner(x).cpu < |pageset|)
  }

  /** Allocated blocks fit the zone and do not overlap. */
  ghost predicate HeldOk(held: set<Block>, zone: set<nat>, maxOrder: nat) {
    Placed(held, zone, maxOrder) && Separate(held)
  }

  ghost predicate AllOwned(owner: Ledger, s: set<nat>, o: Owner) { forall x <- s :: owner(x) == o }

  /** Pages leave the buddy lists. */
  lemma FromBuddy(owner: Ledger, pageset: seq<PerCpuPages>, free: set<nat>, inUse: set<nat>, managed: set<nat>, s: set<nat>)
    requires Agrees(owner, pageset, free, inUse, managed) && s <= free
    ensures Agrees(Give(owner, s, InFlight), pageset, free - s, inUse, managed)
  {
  }

  /** Pages in flight reach the buddy lists. */
  lemma ToBuddy(owner: Ledger, pageset: seq<PerCpuPages>, free: set<nat>, inUse: set<nat>, managed: set<nat>, s: set<nat>)
    requires Agrees(owner, pageset, free, inUse, managed) && AllOwned(owner, s, InFlight)
    ensures Agrees(Give(owner, s, InBuddy), pageset, free + s, inUse, managed)
  {
  }

  /** Pages in flight are dropped. */
  lemma ToLeaked(owner: Ledger, pageset: seq<PerCpuPages>, free: set<nat>, inUse: set<nat>, managed: set<nat>, s: set<nat>)
    requires Agrees(owner, pageset, free, inUse, managed) && AllOwned(owner, s, InFlight)
    ensures Agrees(Give(owner, s, Leaked), pageset, free, inUse, managed)
  {
  }

  /** Pages in flight are handed to a caller. */
  lemma ToCaller(owner: Ledger, pageset: seq<PerCpuPages>, free: set<nat>, inUse: set<nat>, managed: set<nat>, s: set<nat>)
    requires Agrees(owner, pageset, free, inUse, managed) && AllOwned(owner, s, InFlight)
    ensures Agrees(Give(owner, s, Allocated), pageset, free, inUse + s, managed)
  {
  }

  /** A caller's pages come back. */
  lemma FromCaller(owner: Ledger, pageset: seq<PerCpuPages>, free: set<nat>, inUse: set<nat>, managed: set<nat>, s: set<nat>)
    requires Agrees(owner, pageset, free, inUse, managed) && s <= inUse
    ensures Agrees(Give(owner, s, InFlight), pageset, free, inUse - s, managed)
  {
  }

  /** Pages come under management. */
  lemma ToManaged(owner: Ledger, pageset: seq<PerCpuPages>, free: set<nat>, inUse: set<nat>, managed: set<nat>, s: set<nat>)
    requires Agrees(owner, pageset, free, inUse, managed) && s !! managed
    ensures Agrees(Give(owner, s, InFlight), pageset, free, inUse, managed + s)
  {
  }

  /** A page leaves a per-CPU list. */
  lemma FromPcp(owner: Ledger, pageset: seq<PerCpuPages>, free: set<nat>, inUse: set<nat>, managed: set<nat>,
                cpu: nat, p: PerCpuPages, x: nat)
    requires Agrees(owner, pageset, free, inUse, managed) && cpu < |pageset| && x in pageset[cpu].lists
    requires forall y :: y in p.lists <==> y in pageset[cpu].lists && y != x
    ensures Agrees(Give(owner, {x}, InFlight), pageset[cpu := p], free, inUse, managed)
  {
  }

  /** Pages in flight join a per-CPU list. */
  lemma ToPcp(owner: Ledger, pageset: seq<PerCpuPages>, free: set<nat>, inUse: set<nat>, managed: set<nat>,
              cpu: nat, p: PerCpuPages, s: set<nat>)
    requires Agrees(owner, pageset, free, inUse, managed) && cpu < |pageset| && AllOwned(owner, s, InFlight)
    requires forall y :: y in p.lists <==> y in pageset[cpu].lists || y in s
    ensures Agrees(Give(owner, s, InPcp(cpu)), pageset[cpu := p], free, inUse, managed)
  {
  }

  lemma OnePage(x: nat, zone: set<nat>, maxOrder: nat)
    requires x in zone && maxOrder >= 1
    ensures Pages(Block(x, 0)) == {x} && Fits(Block(x, 0), zone, maxOrder)
  {
    forall y: nat ensures Within(Block(x, 0), y) <==> y == x {
    }
  }

  // ---------------------------------------------------------------------------
  // The boot splitter

  /** An aligned block inside the range that could not be one order larger. */
  ghost predicate Tile(b: Block, end: nat, maxOrder: nat) {
    && b.order < maxOrder && Aligned(b.pfn, b.order) && b.pfn + Pow2(b.order) <= end
    && (b.order + 1 == maxOrder || !Aligned(b.pfn, b.order + 1) || b.pfn + Pow2(b.order + 1) > end)
  }

  /** Consecutive tiles from `start` up to `pos`. */
  ghost predicate Tiling(tiles: seq<Block>, start: nat, pos: nat, end: nat, maxOrder: nat)
    decreases |tiles|
  {
    if tiles == [] then pos == start
    else
      var last := tiles[|tiles| - 1];
      && Tile(last, end, maxOrder) && pos == last.pfn + Pow2(last.order)
      && Tiling(tiles[..|tiles| - 1], start, last.pfn, end, maxOrder)
  }

  /** The choice of order in __free_pages_memory. */
  method TileOrder(start: nat, end: nat, maxOrder: nat) returns (order: nat)
    requires 0 < start < end && maxOrder >= 1
    ensures Tile(Block(start, order), end, maxOrder)
  {
    var low := Ffs(start);
    order := if maxOrder - 1 <= low then maxOrder - 1 else low;
    FfsIsAlignment(start, order + 1);
    while start + Pow2(order) > end
      invariant order < maxOrder && order <= low
      invariant order + 1 == maxOrder || !Aligned(start, order + 1) || start + Pow2(order + 1) > end
    {
      order := order - 1;
    }
    FfsIsAlignment(start, order);
  }

  lemma NextTile(tiles: seq<Block>, start: nat, b: Block, end: nat, maxOrder: nat)
    requires Tiling(tiles, start, b.pfn, end, maxOrder) && Tile(b, end, maxOrder)
    ensures Tiling(tiles + [b], start, b.pfn + Pow2(b.order), end, maxOrder)
  {
    assert (tiles + [b])[..|tiles|] == tiles;
  }

  lemma IntervalTile(start: nat, b: Block, end: nat, zone: set<nat>, managed0: set<nat>, managed: set<nat>, maxOrder: nat)
    requires start <= b.pfn && Tile(b, end, maxOrder)
    requires Interval(start, end - start) <= zone && Interval(start, end - start) !! managed0
    requires managed == managed0 + Interval(start, b.pfn - start)
    ensures Fits(b, zone, maxOrder) && Pages(b) !! managed
    ensures managed + Pages(b) == managed0 + Interval(start, b.pfn + Pow2(b.order) - start)
  {
    assert Pages(b) == Interval(b.pfn, Pow2(b.order));
    assert Interval(start, b.pfn + Pow2(b.order) - start) == Interval(start, b.pfn - start) + Pages(b);
    assert Pages(b) <= Interval(start, end - start);
  }

  /** The range from start0 has been freed up to `start` as the given tiles. */
  ghost predicate Booted(managed0: set<nat>, pages0: nat, managed: set<nat>, pages: nat, tiles: seq<Block>,
                         start0: nat, start: nat, end: nat, maxOrder: nat) {
    && start0 <= start <= end
    && managed == managed0 + Interval(start0, start - start0)
    && pages == pages0 + (start - start0)
    && Tiling(tiles, start0, start, end, maxOrder)
  }

  lemma BootStep(managed0: set<nat>, pages0: nat, managed: set<nat>, pages: nat, tiles: seq<Block>,
                 start0: nat, b: Block, end: nat, maxOrder: nat, zone: set<nat>)
    requires Booted(managed0, pages0, managed, pages, tiles, start0, b.pfn, end, maxOrder) && Tile(b, end, maxOrder)
    requires Interval(start0, end - start0) <= zone && Interval(start0, end - start0) !! managed0
    ensures Fits(b, zone, maxOrder) && Pages(b) !! managed && Pow2(b.order) >= 1
    ensures Booted(managed0, pages0, managed + Pages(b), pages + Pow2(b.order), tiles + [b],
                   start0, b.pfn + Pow2(b.order), end, maxOrder)
  {
    NextTile(tiles, start0, b, end, maxOrder);
    hide Tiling;
    IntervalTile(start0, b, end, zone, managed0, managed, maxOrder);
  }

  /** The pages are on this CPU's list or free, and no others have moved, except from its list to the free ones. */
  ghost predicate BootFreed(owner: Ledger, owner': Ledger, cpu: nat, s: set<nat>) {
    && (forall x: nat | x in s :: Local(owner'(x), cpu))
    && (forall x: nat | x !in s :: owner'(x) == owner(x) || (owner(x) == InPcp(cpu) && Local(owner'(x), cpu)))
  }

  lemma BootCoreFreed(owner0: Ledger, owner1: Ledger, owner2: Ledger, b: Block, cpu: nat)
    requires Moved(owner0, owner1, Pages(b), InFlight) && (forall x: nat :: owner2(x) != InFlight)
    requires b.order > 0 ==> Moved(owner1, owner2, Pages(b), InBuddy)
    requires b.order == 0 ==> Pages(b) == {b.pfn}
    requires b.order == 0 ==>
               (forall x: nat :: owner2(x) == owner1(x) || ((x == b.pfn || owner1(x) == InPcp(cpu)) && Local(owner2(x), cpu)))
    ensures BootFreed(owner0, owner2, cpu, Pages(b))
  {
    hide Pages;
  }

  lemma BootFreedMore(owner0: Ledger, owner1: Ledger, owner2: Ledger, cpu: nat, m0: set<nat>, m1: set<nat>, m2: set<nat>)
    requires m0 <= m1 <= m2 && BootFreed(owner0, owner1, cpu, m1 - m0) && BootFreed(owner1, owner2, cpu, m2 - m1)
    ensures BootFreed(owner0, owner2, cpu, m2 - m0)
  {
  }

  // ---------------------------------------------------------------------------
  // Counting

  function SumCounts(pageset: seq<PerCpuPages>, n: nat): int
    requires n <= |pageset|
  {
    if n == 0 then 0 else SumCounts(pageset, n - 1) + pageset[n - 1].count
  }

  ghost function CachedBelow(owner: Ledger, managed: set<nat>, n: nat): set<nat> {
    set x | x in managed && owner(x).InPcp? && owner(x).cpu < n
  }

  lemma CachedSplit(owner: Ledger, pageset: seq<PerCpuPages>, free: set<nat>, inUse: set<nat>, managed: set<nat>, n: nat)
    requires n < |pageset| && PcpsOk(pageset) && Agrees(owner, pageset, free, inUse, managed)
    ensures |CachedBelow(owner, managed, n + 1)| == |CachedBelow(owner, managed, n)| + pageset[n].count
  {
    var low, top := CachedBelow(owner, managed, n), Elems(pageset[n].lists);
    forall x ensures x in CachedBelow(owner, managed, n + 1) <==> x in low || x in top {
    }
    assert low !! top && CachedBelow(owner, managed, n + 1) == low + top;
    assert PcpOk(pageset[n]);
    ElemsCount(pageset[n].lists);
  }

  lemma {:induction false} CachedCount(owner: Ledger, pageset: seq<PerCpuPages>, free: set<nat>, inUse: set<nat>,
                                       managed: set<nat>, n: nat)
    requires n <= |pageset| && PcpsOk(pageset) && Agrees(owner, pageset, free, inUse, managed)
    ensures SumCounts(pageset, n) == |CachedBelow(owner, managed, n)|
  {
    if n == 0 {
      assert CachedBelow(owner, managed, 0) == {};
    } else {
      CachedCount(owner, pageset, free, inUse, managed, n - 1);
      CachedSplit(owner, pageset, free, inUse, managed, n - 1);
    }
  }

  /** Exactly one of four. */
  predicate OneOf(a: bool, b: bool, c: bool, d: bool) {
    (a || b || c || d) && !(a && b) && !(a && c) && !(a && d) && !(b && c) && !(b && d) && !(c && d)
  }

  lemma FourParts(m: set<nat>, a: set<nat>, b: set<nat>, c: set<nat>, d: set<nat>)
    requires forall x | x in m :: OneOf(x in a, x in b, x in c, x in d)
    requires a <= m && b <= m && c <= m && d <= m
    ensures |m| == |a| + |b| + |c| + |d|
  {
    assert a !! b;
    assert (a + b) !! c;
    assert (a + b + c) !! d;
    assert m == a + b + c + d;
  }

  lemma PartitionCount(owner: Ledger, pageset: seq<PerCpuPages>, free: set<nat>, inUse: set<nat>, managed: set<nat>)
    requires Agrees(owner, pageset, free, inUse, managed) && forall x: nat :: owner(x) != InFlight
    ensures |managed| == |free| + |CachedBelow(owner, managed, |pageset|)| + |inUse|
                         + |set x | x in managed && owner(x) == Leaked|
  {
    var cached := CachedBelow(owner, managed, |pageset|);
    var leaked := set x | x in managed && owner(x) == Leaked;
    forall x | x in managed ensures OneOf(x in free, x in cached, x in inUse, x in leaked) {
    }
    FourParts(managed, free, cached, inUse, leaked);
  }

  lemma NoBlockCoversNothing(bs: set<Block>)
    requires forall b | b in bs :: b.order < 0
    ensures Covered(bs) == {}
  {
    forall x | x in Covered(bs) ensures false {
      var b := CoverOf(bs, x);
    }
  }

  lemma FitsInZone(b: Block, zone: set<nat>, maxOrder: nat)
    requires Fits(b, zone, maxOrder)
    ensures Pages(b) <= zone
  {
  }

  lemma SinglePage(b: Block)
    ensures b.order == 0 ==> Pages(b) == {b.pfn}
  {
    if b.order == 0 {
      forall y: nat ensures Within(b, y) <==> y == b.pfn {
      }
    }
  }

  lemma ElemsStep<T>(s: seq<T>, i: nat)
    requires i < |s|
    ensures Elems(s[..i + 1]) == Elems(s[..i]) + {s[i]}
  {
    assert s[..i + 1] == s[..i] + [s[i]];
  }

  lemma ElemsAppend<T>(s: seq<T>, x: T)
    ensures Elems(s + [x]) == Elems(s) + {x}
  {
  }

  lemma CoverAdd(bs: set<Block>, b: Block)
    ensures Covered(bs + {b}) == Covered(bs) + Pages(b)
  {
    forall x | x in Covered(bs + {b}) ensures x in Covered(bs) + Pages(b) {
      var c := CoverOf(bs + {b}, x);
    }
  }

  /** A new block on pages nobody holds keeps the allocated blocks apart. */
  lemma HoldBlock(held: set<Block>, b: Block, zone: set<nat>, maxOrder: nat)
    requires HeldOk(held, zone, maxOrder) && Fits(b, zone, maxOrder) && Pages(b) !! Covered(held)
    ensures HeldOk(held + {b}, zone, maxOrder) && b !in held
    ensures Covered(held + {b}) == Covered(held) + Pages(b)
  {
    CoverAdd(held, b);
    FirstPage(b);
    forall c | c in held ensures Pages(c) !! Pages(b) {
      assert Pages(c) <= Covered(held);
    }
  }

  lemma ReleaseBlock(held: set<Block>, b: Block, zone: set<nat>, maxOrder: nat)
    requires HeldOk(held, zone, maxOrder) && b in held
    ensures HeldOk(held - {b}, zone, maxOrder) && Fits(b, zone, maxOrder)
    ensures Pages(b) <= Covered(held) && Covered(held - {b}) == Covered(held) - Pages(b)
  {
    SeparateSplit(held, b);
  }

  /** No cache is filled beyond its high mark. */
  ghost predicate CachesBounded(pageset: seq<PerCpuPages>) {
    forall c | 0 <= c < |pageset| :: pageset[c].count == 0 || pageset[c].count < pageset[c].high
  }

  class PageAllocator {
    const z: Zone
    var pageset: seq<PerCpuPages>       // indexed by CPU
    var managedPages: nat
    ghost var owner: Ledger
    ghost var held: set<Block>          // the blocks callers have
    ghost var managed: set<nat>         // every page ever freed to the zone

    /** Holds throughout: lists, flags, caches, counters and the ledger all agree. */
    ghost predicate Held()
      reads this, z, z.freeArea
    {
      && z.ListsValid() && PcpsOk(pageset) && HeldOk(held, z.zone, z.MaxOrder())
      && Agrees(owner, pageset, z.Free(), Covered(held), managed)
      && managed <= z.zone && managedPages == |managed|
    }

    /** No page is off the lists. */
    ghost predicate Quiet()
      reads this
    {
      forall x :: owner(x) != InFlight
    }

    /** Holds between operations. */
    ghost predicate Valid()
      reads this, z, z.freeArea
    {
      Held() && Quiet() && CachesBounded(pageset)
    }

    /** A zone as free_area_init_node leaves it: empty lists, caches sized from the zone's future size. */
    constructor (maxOrder: nat, valid: set<nat>, zone: set<nat>, zoneId: nat -> nat, id: nat, foreign: map<nat, nat>,
                 nrCpus: nat, size: nat)
      requires maxOrder >= 1 && ZonesOk(valid, zone, zoneId, id) && foreign.Keys !! zone
      ensures Valid() && fresh(z) && fresh(z.freeArea)
      ensures z.MaxOrder() == maxOrder && z.valid == valid && z.zone == zone
      ensures managed == {} && held == {} && |pageset| == nrCpus
      ensures forall c | 0 <= c < nrCpus :: pageset[c].high >= 6 <==> size >= 8192
      ensures forall x: nat :: owner(x) == Unmanaged
    {
      var s1, s2, s3 := ZonePagesetInit(size);
      z := new Zone(maxOrder, valid, zone, zoneId, id, foreign);
      pageset := seq(nrCpus, _ => s3);
      managedPages := 0;
      owner := (x: nat) => Unmanaged;
      held, managed := {}, {};
      new;
      assert Covered({}) == {};
    }

    // -------------------------------------------------------------------------
    // Moving pages, with the ledger

    lemma PcpFacts(cpu: nat)
      requires Held() && cpu < |pageset|
      ensures PcpOk(pageset[cpu])
    {
    }

    /** list_last_entry, list_del and count-- on a per-CPU list. */
    method TakeLast(cpu: nat) returns (page: nat)
      requires Held() && cpu < |pageset| && pageset[cpu].lists != []
      modifies this`pageset, this`owner
      ensures Held()
      ensures var l := old(pageset[cpu].lists);
              && page == l[|l| - 1]
              && pageset == old(pageset)[cpu := old(pageset[cpu]).(count := |l| - 1, lists := l[..|l| - 1])]
      ensures Moved(old(owner), owner, {page}, InFlight) && old(owner)(page) == InPcp(cpu)
    {
      hide Zone.ListsValid;
      hide HeldOk;
      hide Covered;
      var p := pageset[cpu];
      assert PcpOk(p);
      var n := |p.lists|;
      page := p.lists[n - 1];
      assert p.lists == p.lists[..n - 1] + [page];
      var p' := p.(count := p.count - 1, lists := p.lists[..n - 1]);
      FromPcp(owner, pageset, z.Free(), Covered(held), managed, cpu, p', page);
      pageset := pageset[cpu := p'];
      owner := Give(owner, {page}, InFlight);
    }

    /** list_first_entry, list_del and count-- on a per-CPU list. */
    method TakeFirst(cpu: nat) returns (page: nat)
      requires Held() && cpu < |pageset| && pageset[cpu].lists != []
      modifies this`pageset, this`owner
      ensures Held()
      ensures var l := old(pageset[cpu].lists);
              && page == l[0]
              && pageset == old(pageset)[cpu := old(pageset[cpu]).(count := |l| - 1, lists := l[1..])]
      ensures Moved(old(owner), owner, {page}, InFlight) && old(owner)(page) == InPcp(cpu)
    {
      hide Zone.ListsValid;
      hide HeldOk;
      hide Covered;
      var p := pageset[cpu];
      assert PcpOk(p);
      page := p.lists[0];
      assert p.lists == [page] + p.lists[1..];
      var p' := p.(count := p.count - 1, lists := p.lists[1..]);
      FromPcp(owner, pageset, z.Free(), Covered(held), managed, cpu, p', page);
      pageset := pageset[cpu := p'];
      owner := Give(owner, {page}, InFlight);
    }

    /** Put pages in flight on a per-CPU list: at the front when freeing, at the tail when refilling. */
    method AddToPcp(cpu: nat, pages: seq<nat>, tail: bool)
      requires Held() && cpu < |pageset| && NoDup(pages) && AllOwned(owner, Elems(pages), InFlight)
      modifies this`pageset, this`owner
      ensures Held()
      ensures var p := old(pageset[cpu]);
              pageset == old(pageset)[cpu := p.(count := p.count + |pages|,
                                                lists := if tail then p.lists + pages else pages + p.lists)]
      ensures Moved(old(owner), owner, Elems(pages), InPcp(cpu))
    {
      hide Zone.ListsValid;
      hide HeldOk;
      hide Covered;
      var p := pageset[cpu];
      assert PcpOk(p);
      assert forall x :: x in p.lists ==> x !in Elems(pages);
      NoDupConcat(p.lists, pages);
      var p' := p.(count := p.count + |pages|, lists := if tail then p.lists + pages else pages + p.lists);
      ToPcp(owner, pageset, z.Free(), Covered(held), managed, cpu, p', Elems(pages));
      pageset := pageset[cpu := p'];
      owner := Give(owner, Elems(pages), InPcp(cpu));
    }

    /** free_one_page */
    method GiveToBuddy(b: Block)
      requires Held() && Fits(b, z.zone, z.MaxOrder()) && AllOwned(owner, Pages(b), InFlight)
      modifies this`owner, z`buddyOrder, z.freeArea
      ensures Held() && Moved(old(owner), owner, Pages(b), InBuddy)
      ensures z.Free() == old(z.Free()) + Pages(b)
    {
      hide Zone.ListsValid;
      hide HeldOk;
      hide Covered;
      hide PcpsOk;
      ghost var merged := z.FreeOnePage(b.pfn, b.order);
      ToBuddy(owner, pageset, old(z.Free()), Covered(held), managed, Pages(b));
      owner := Give(owner, Pages(b), InBuddy);
    }

    /** __rmqueue */
    method TakeFromBuddy(order: nat) returns (page: Option<nat>)
      requires Held()
      modifies this`owner, z`buddyOrder, z.freeArea
      ensures Held()
      ensures page.None? <==> forall b | b in old(z.Blocks()) :: b.order < order
      ensures page.None? ==> z.Blocks() == old(z.Blocks()) && owner == old(owner)
      ensures page.Some? ==>
                var b := Block(page.value, order);
                && Fits(b, z.zone, z.MaxOrder()) && Pages(b) <= old(z.Free())
                && z.Free() == old(z.Free()) - Pages(b)
                && Moved(old(owner), owner, Pages(b), InFlight)
    {
      hide Zone.ListsValid;
      hide HeldOk;
      hide Covered;
      hide PcpsOk;
      page := z.RmqueueSmallest(order);
      if page.Some? {
        ghost var b := Block(page.value, order);
        FromBuddy(owner, pageset, old(z.Free()), Covered(held), managed, Pages(b));
        owner := Give(owner, Pages(b), InFlight);
      }
    }

    // -------------------------------------------------------------------------
    // Emptying a per-CPU list

    /** The body of the inner loop: list_add_tail of the last page to the local list. */
    method CollectOne(cpu: nat, head: seq<nat>, ghost pageset0: seq<PerCpuPages>, ghost owner0: Ledger)
      returns (head': seq<nat>)
      requires Held() && Collected(pageset0, owner0, pageset, owner, cpu, head)
      requires NoDup(pageset0[cpu].lists) && pageset[cpu].lists != []
      modifies this`pageset, this`owner
      ensures Held() && Collected(pageset0, owner0, pageset, owner, cpu, head') && |head'| == |head| + 1
    {
      ghost var pageset1, owner1 := pageset, owner;
      var page := TakeLast(cpu);
      CollectedStep(pageset0, owner0, pageset1, owner1, owner, cpu, head, page);
      head' := head + [page];
    }

    /** free_pcppages_bulk, first half: pull `count` pages off the tail of the list. */
    method CollectTail(cpu: nat, count: nat) returns (head: seq<nat>)
      requires Held() && cpu < |pageset| && count <= |pageset[cpu].lists|
      modifies this`pageset, this`owner
      ensures Held() && |head| == count
      ensures Collected(old(pageset), old(owner), pageset, owner, cpu, head)
    {
      hide Zone.ListsValid;
      hide HeldOk;
      hide Covered;
      hide PcpsOk;
      hide Agrees;
      PcpFacts(cpu);
      head := [];
      var remaining, batchFree := count, 0;
      CollectedNone(pageset, owner, cpu);
      while remaining != 0
        invariant 0 <= remaining <= count && |head| == count - remaining
        invariant Held() && Collected(old(pageset), old(owner), pageset, owner, cpu, head)
        decreases remaining
      {
        batchFree := batchFree + 1;
        ghost var entered := remaining;
        var again := true;
        while again
          invariant 0 <= remaining <= entered && |head| == count - remaining
          invariant if again then remaining > 0 else remaining < entered
          invariant Held() && Collected(old(pageset), old(owner), pageset, owner, cpu, head)
          decreases remaining, again
        {
          head := CollectOne(cpu, head, old(pageset), old(owner));
          remaining := remaining - 1;
          again := false;
          if remaining != 0 {
            batchFree := batchFree - 1;
            again := batchFree != 0 && pageset[cpu].lists != [];
          }
        }
      }
    }

    /** The pages head[..i] have gone back to the buddy lists since the state given by owner0 and free0. */
    ghost predicate Returned(owner0: Ledger, free0: set<nat>, head: seq<nat>, i: nat)
      reads this`owner, z.freeArea
    {
      && i <= |head|
      && Moved(owner0, owner, Elems(head[..i]), InBuddy)
      && z.Free() == free0 + Elems(head[..i])
    }

    method ReturnOne(head: seq<nat>, i: nat, ghost owner0: Ledger, ghost free0: set<nat>)
      requires Held() && NoDup(head) && AllOwned(owner0, Elems(head), InFlight) && i < |head|
      requires Returned(owner0, free0, head, i)
      modifies this`owner, z`buddyOrder, z.freeArea
      ensures Held() && Returned(owner0, free0, head, i + 1)
    {
      hide HeldOk;
      hide Covered;
      hide PcpsOk;
      hide WellFormed;
      hide FlagsOk;
      hide AreasOk;
      assert head[i] in Elems(head) && head[i] !in Elems(head[..i]);
      OnePage(head[i], z.zone, z.MaxOrder());
      GiveToBuddy(Block(head[i], 0));
      ElemsStep(head, i);
    }

    /** free_pcppages_bulk, second half: free the collected pages one by one. */
    method ReturnPages(head: seq<nat>)
      requires Held() && NoDup(head) && AllOwned(owner, Elems(head), InFlight)
      modifies this`owner, z`buddyOrder, z.freeArea
      ensures Held() && Moved(old(owner), owner, Elems(head), InBuddy)
      ensures z.Free() == old(z.Free()) + Elems(head)
    {
      hide Zone.ListsValid;
      hide HeldOk;
      hide Covered;
      hide PcpsOk;
      hide Agrees;
      assert head[..0] == [];
      var i := 0;
      while i < |head|
        invariant Held() && Returned(old(owner), old(z.Free()), head, i)
      {
        ReturnOne(head, i, old(owner), old(z.Free()));
        i := i + 1;
      }
      assert head[..|head|] == head;
    }

    /** free_pcppages_bulk: the last `count` pages of the list go back to the buddy lists. */
    method FreePcppagesBulk(cpu: nat, count: nat)
      requires Held() && cpu < |pageset| && count <= |pageset[cpu].lists|
      modifies this`pageset, this`owner, z`buddyOrder, z.freeArea
      ensures Held()
      ensures var l := old(pageset[cpu].lists);
              && pageset == old(pageset)[cpu := old(pageset[cpu]).(count := |l| - count, lists := l[..|l| - count])]
              && Moved(old(owner), owner, Elems(l[|l| - count..]), InBuddy)
              && z.Free() == old(z.Free()) + Elems(l[|l| - count..])
    {
      hide Zone.ListsValid;
      hide HeldOk;
      hide Covered;
      hide PcpsOk;
      hide Agrees;
      var head := CollectTail(cpu, count);
      ReturnPages(head);
    }

    /** free_unref_page_commit: to the front of the cache; a full cache gives a batch back. */
    method FreeUnrefPageCommit(cpu: nat, page: nat)
      requires Held() && CachesBounded(pageset) && cpu < |pageset|
      requires forall x :: owner(x) == InFlight <==> x == page
      modifies this`pageset, this`owner, z`buddyOrder, z.freeArea
      ensures Valid() && Pushed(old(pageset), pageset, cpu, page)
      ensures z.Free() == old(z.Free()) + Elems(([page] + old(pageset[cpu].lists))[|pageset[cpu].lists|..])
      ensures forall x :: owner(x) == old(owner)(x) ||
                          ((x == page || old(owner)(x) == InPcp(cpu)) && (owner(x) == InPcp(cpu) || owner(x) == InBuddy))
    {
      hide Zone.ListsValid;
      hide HeldOk;
      hide Covered;
      hide PcpsOk;
      hide BlocksOf;
      hide Pages;
      PcpFacts(cpu);
      assert Elems([page]) == {page};
      AddToPcp(cpu, [page], false);
      ghost var l := pageset[cpu].lists;
      assert l[..|l|] == l && Elems(l[|l|..]) == {};
      if pageset[cpu].count >= pageset[cpu].high {
        FreePcppagesBulk(cpu, pageset[cpu].batch);
      }
    }

    /** drain_pages_zone: the whole cache of one CPU goes back to the buddy lists. */
    method DrainPagesZone(cpu: nat) returns (hasPage: bool)
      requires Valid() && cpu < |pageset|
      modifies this`pageset, this`owner, z`buddyOrder, z.freeArea
      ensures Valid() && pageset == old(pageset)[cpu := old(pageset[cpu]).(count := 0, lists := [])]
      ensures hasPage == old(pageset[cpu].lists != [])
      ensures z.Free() == old(z.Free()) + Elems(old(pageset[cpu].lists))
      ensures Moved(old(owner), owner, Elems(old(pageset[cpu].lists)), InBuddy)
    {
      hide Zone.ListsValid;
      hide HeldOk;
      hide Covered;
      hide PcpsOk;
      PcpFacts(cpu);
      hasPage := false;
      if pageset[cpu].count != 0 {
        hasPage := true;
        assert pageset[cpu].lists[0..] == pageset[cpu].lists;
        FreePcppagesBulk(cpu, pageset[cpu].count);
      }
    }

    // -------------------------------------------------------------------------
    // Allocation

    /** What rmqueue_bulk has taken so far. */
    ghost predicate Refilled(owner0: Ledger, free0: set<nat>, got: seq<nat>)
      reads this`owner, z.freeArea
    {
      && NoDup(got) && Elems(got) <= free0
      && z.Free() == free0 - Elems(got)
      && Moved(owner0, owner, Elems(got), InFlight)
    }

    method RefillOne(got: seq<nat>, ghost owner0: Ledger, ghost free0: set<nat>) returns (ok: bool, got': seq<nat>)
      requires Held() && Refilled(owner0, free0, got)
      modifies this`owner, z`buddyOrder, z.freeArea
      ensures Held() && Refilled(owner0, free0, got')
      ensures ok ==> |got'| == |got| + 1
      ensures !ok ==> got' == got && z.Free() == {}
    {
      hide Zone.ListsValid;
      hide HeldOk;
      hide PcpsOk;
      hide Agrees;
      hide Covered;
      hide BlocksOf;
      hide Pages;
      hide Fits;
      var page := TakeFromBuddy(0);
      if page.None? {
        NoBlockCoversNothing(z.Blocks());
        return false, got;
      }
      SinglePage(Block(page.value, 0));
      ElemsAppend(got, page.value);
      return true, got + [page.value];
    }

    /** rmqueue_bulk for order 0: up to `count` pages, fewer only when the buddy lists run dry. */
    method RmqueueBulk(count: nat) returns (got: seq<nat>)
      requires Held()
      modifies this`owner, z`buddyOrder, z.freeArea
      ensures Held() && Refilled(old(owner), old(z.Free()), got)
      ensures |got| <= count && (|got| < count ==> z.Free() == {})
    {
      hide Zone.ListsValid;
      hide HeldOk;
      hide Covered;
      hide PcpsOk;
      hide Agrees;
      got := [];
      var i := 0;
      while i < count
        invariant 0 <= i <= count && |got| == i
        invariant Held() && Refilled(old(owner), old(z.Free()), got)
      {
        var ok;
        ok, got := RefillOne(got, old(owner), old(z.Free()));
        if !ok {
          break;
        }
        i := i + 1;
      }
    }

    /** Refill an empty per-CPU list with a batch of pages. */
    method RefillPcp(cpu: nat) returns (got: seq<nat>)
      requires Held() && cpu < |pageset| && pageset[cpu].lists == []
      modifies this`pageset, this`owner, z`buddyOrder, z.freeArea
      ensures Held()
      ensures pageset == old(pageset)[cpu := old(pageset[cpu]).(count := |got|, lists := got)]
      ensures IsBatch(old(z.Free()), z.Free(), pageset[cpu].batch, got) && pageset[cpu].batch >= 1
      ensures Moved(old(owner), owner, Elems(got), InPcp(cpu))
    {
      hide Zone.ListsValid;
      hide HeldOk;
      hide Covered;
      hide PcpsOk;
      hide Agrees;
      hide BlocksOf;
      PcpFacts(cpu);
      got := RmqueueBulk(pageset[cpu].batch);
      AddToPcp(cpu, got, true);
      assert [] + got == got;
    }

    /** The pages an order-0 allocation on this CPU can draw from. */
    ghost function Supply(cpu: nat): nat
      requires cpu < |pageset|
      reads this, z.freeArea
    {
      |z.Free()| + |pageset[cpu].lists|
    }

    /** The first half of a round of __rmqueue_pcplist: make sure the list has a page, if there is one. */
    method EnsurePcp(cpu: nat) returns (ghost got: seq<nat>)
      requires Held() && CachesBounded(pageset) && cpu < |pageset|
      modifies this`pageset, this`owner, z`buddyOrder, z.freeArea
      ensures Held() && |pageset| == |old(pageset)| && Supply(cpu) == old(Supply(cpu))
      ensures OthersKept(old(pageset), pageset, cpu)
      ensures pageset[cpu].count == |pageset[cpu].lists|
      ensures pageset[cpu].count <= 1 || pageset[cpu].count - 1 < pageset[cpu].high
      ensures pageset[cpu].lists == [] ==> z.Free() == {}
      ensures LocalMove(old(owner), owner, cpu)
      ensures old(pageset[cpu].lists) != [] ==> got == [] && pageset == old(pageset) && z.Free() == old(z.Free())
      ensures old(pageset[cpu].lists) == [] ==>
                pageset[cpu].lists == got && IsBatch(old(z.Free()), z.Free(), pageset[cpu].batch, got)
    {
      hide Zone.ListsValid;
      hide HeldOk;
      hide Covered;
      hide PcpsOk;
      hide Agrees;
      hide BlocksOf;
      PcpFacts(cpu);
      if pageset[cpu].lists == [] {
        FreeIsBuddy();
        var batch := RefillPcp(cpu);
        DifferenceCount(old(z.Free()), batch);
        return batch;
      }
      return [];
    }

    lemma FreeIsBuddy()
      requires Held()
      ensures forall x | x in z.Free() :: owner(x) == InBuddy
    {
    }

    /** One round of __rmqueue_pcplist: refill the list if it is empty and take its first page. */
    method PcpNext(cpu: nat) returns (page: Option<nat>, ghost got: seq<nat>)
      requires Held() && Quiet() && CachesBounded(pageset) && cpu < |pageset|
      modifies this`pageset, this`owner, z`buddyOrder, z.freeArea
      ensures Held() && CachesBounded(pageset) && OthersKept(old(pageset), pageset, cpu)
      ensures page.None? ==> z.Free() == {} && pageset[cpu].lists == [] && LocalMove(old(owner), owner, cpu)
      ensures page.Some? ==> Supply(cpu) < old(Supply(cpu)) && Picked(old(owner), owner, cpu, page.value)
      ensures var l := old(pageset[cpu].lists);
              l != [] ==> page == Some(l[0]) && TakenOff(old(pageset), pageset, cpu, 1) && z.Free() == old(z.Free())
      ensures page.Some? ==> var l, l' := old(pageset[cpu].lists), pageset[cpu].lists;
                             NextOf(l, old(z.Free()), l', z.Free(), pageset[cpu].batch, page.value, got)
    {
      hide Zone.ListsValid;
      hide HeldOk;
      hide Covered;
      hide PcpsOk;
      hide Agrees;
      hide BlocksOf;
      hide CachesBounded;
      PcpFacts(cpu);
      got := EnsurePcp(cpu);
      if pageset[cpu].lists == [] {
        BoundedExcept(old(pageset), pageset, cpu);
        return None, got;
      }
      var first := TakeFirst(cpu);
      BoundedExcept(old(pageset), pageset, cpu);
      return Some(first), got;
    }

    /** __rmqueue_pcplist: pages that fail the state check are dropped until a good one turns up. */
    method RmqueuePcplist(cpu: nat, bad: set<nat>) returns (page: Option<nat>, ghost got: seq<nat>)
      requires Valid() && cpu < |pageset|
      modifies this`pageset, this`owner, z`buddyOrder, z.freeArea
      ensures Held() && CachesBounded(pageset) && OthersKept(old(pageset), pageset, cpu)
      ensures page.None? ==> Quiet() && z.Free() == {} && pageset[cpu].lists == []
      ensures page.Some? ==> page.value !in bad && Local(old(owner)(page.value), cpu)
      ensures page.Some? ==> OnlyInFlight(owner, {page.value})
      ensures forall x: nat | page != Some(x) :: Scanned(old(owner)(x), owner(x), cpu, x in bad)
      ensures var l := old(pageset[cpu].lists); var k := FirstGood(l, bad);
              k < |l| ==> page == Some(l[k]) && TakenOff(old(pageset), pageset, cpu, k + 1) && z.Free() == old(z.Free())
      ensures page.Some? && FirstGood(old(pageset[cpu].lists), bad) == |old(pageset[cpu].lists)| ==>
                Drawn(old(z.Free()), z.Free(), pageset[cpu].lists, pageset[cpu].batch, bad, page.value, got)
    {
      hide Zone.ListsValid;
      hide HeldOk;
      hide Covered;
      hide PcpsOk;
      hide Agrees;
      hide BlocksOf;
      hide TakenOff;
      hide Picked;
      hide LocalMove;
      hide Scanned;
      hide Moved;
      hide OnlyInFlight;
      hide Drawn;
      hide NextOf;
      hide Consuming;
      hide CachesBounded;
      ghost var l, i := pageset[cpu].lists, 0;   // how many pages of the list, or of the last batch, have been dropped
      got := [];
      PcpFacts(cpu);
      NothingConsumed(l, z.Free(), pageset[cpu].batch, bad);
      NothingScanned(owner, cpu, bad);
      while true
        invariant Held() && Quiet() && CachesBounded(pageset) && OthersKept(old(pageset), pageset, cpu)
        invariant forall x: nat :: Scanned(old(owner)(x), owner(x), cpu, x in bad)
        invariant Consuming(l, old(z.Free()), pageset[cpu].lists, z.Free(), pageset[cpu].batch, bad, got, i)
        decreases Supply(cpu)
      {
        ghost var pageset1, owner1, free1 := pageset, owner, z.Free();
        ghost var got1;
        page, got1 := PcpNext(cpu);
        if page.None? {
          ScannedMove(old(owner), owner1, owner, cpu, bad);
          NothingGood(l, old(z.Free()), free1, pageset[cpu].batch, bad, got, i);
          return;
        }
        ScannedMore(old(owner), owner1, owner, cpu, page.value, bad);
        ConsumeNext(l, old(z.Free()), pageset1[cpu].lists, free1, pageset[cpu].batch, bad, got, i,
                    pageset[cpu].lists, z.Free(), got1, page.value);
        if pageset1[cpu].lists == [] { got, i := got1, 0; }
        if page.value !in bad {
          PcpFacts(cpu);
          TakenOffIs(old(pageset), pageset, cpu, i + 1);
          return;
        }
        ghost var owner2 := owner;
        Drop({page.value});
        ScannedDrop(old(owner), owner2, owner, cpu, page.value, bad);
        i := i + 1;
      }
    }

    /** check_new_pages: does any page of the block fail the state check? */
    method CheckNewPages(page: nat, order: nat, bad: set<nat>) returns (fails: bool)
      ensures fails <==> exists x :: x in Pages(Block(page, order)) && x in bad
    {
      var i := 0;
      while i < Pow2(order)
        invariant 0 <= i <= Pow2(order)
        invariant forall x | page <= x < page + i :: x !in bad
      {
        if page + i in bad {
          assert Within(Block(page, order), page + i);
          return true;
        }
        i := i + 1;
      }
      return false;
    }

    /** rmqueue for order >= 1: blocks with a bad page are dropped until a good one turns up. */
    method RmqueueBlock(order: nat, bad: set<nat>) returns (page: Option<nat>)
      requires Valid()
      modifies this`owner, z`buddyOrder, z.freeArea
      ensures Held()
      ensures page.None? ==> Quiet() && forall b | b in z.Blocks() :: b.order < order
      ensures page.Some? ==>
                var b := Block(page.value, order);
                && Fits(b, z.zone, z.MaxOrder()) && Pages(b) !! bad && OnlyInFlight(owner, Pages(b))
                && AllOwned(old(owner), Pages(b), InBuddy)
      ensures Dropped(old(owner), owner, order, bad, if page.None? then {} else Pages(Block(page.value, order)))
    {
      hide Zone.ListsValid;
      hide HeldOk;
      hide Covered;
      hide PcpsOk;
      hide Agrees;
      hide BlocksOf;
      hide Pages;
      hide Fits;
      assert Dropped(owner, owner, order, bad, {});
      hide Dropped;
      hide Spoiled;
      while true
        invariant Held() && Quiet()
        invariant Dropped(old(owner), owner, order, bad, {})
        decreases |z.Free()|
      {
        FreeIsBuddy();
        ghost var free, owner1 := z.Free(), owner;
        page := TakeFromBuddy(order);
        if page.None? {
          return;
        }
        ghost var b := Block(page.value, order);
        DroppedTake(old(owner), owner1, owner, order, bad, Pages(b));
        var fails := CheckNewPages(page.value, order, bad);
        if !fails {
          return;
        }
        SpoiledBlock(b, z.zone, z.MaxOrder(), bad);
        ghost var owner2 := owner;
        Drop(Pages(b));
        DroppedLeak(old(owner), owner2, owner, order, bad, Pages(b));
        FirstPage(b);
        ProperSubsetCount(z.Free(), free, b.pfn);
      }
    }

    /** Hand pages in flight to the caller as one block. */
    ghost method Hold(b: Block)
      requires Held() && Fits(b, z.zone, z.MaxOrder()) && AllOwned(owner, Pages(b), InFlight)
      modifies this`owner, this`held
      ensures Held() && Moved(old(owner), owner, Pages(b), Allocated)
      ensures held == old(held) + {b} && b !in old(held)
    {
      assert Pages(b) !! Covered(held);
      hide Zone.ListsValid;
      hide PcpsOk;
      HoldBlock(held, b, z.zone, z.MaxOrder());
      hide HeldOk;
      hide Covered;
      ToCaller(owner, pageset, z.Free(), Covered(held), managed, Pages(b));
      owner := Give(owner, Pages(b), Allocated);
      held := held + {b};
    }

    /**
     rmqueue, with the hand-over of what it finds: the caller gets a block of pages that nobody else
     holds, and every other page is where it was, or on the lists it can be drawn from, or dropped
     because of a bad page.
     */
    method Rmqueue(cpu: nat, order: nat, bad: set<nat>) returns (page: Option<nat>, ghost got: seq<nat>)
      requires Valid() && cpu < |pageset| && order < z.MaxOrder()
      modifies this`pageset, this`owner, this`held, z`buddyOrder, z.freeArea
      ensures Valid() && OthersKept(old(pageset), pageset, cpu)
      ensures page.None? ==> held == old(held) && forall b | b in z.Blocks() :: b.order < order
      ensures page.None? && order == 0 ==> z.Free() == {} && pageset[cpu].lists == []
      ensures page.Some? ==>
                var b := Block(page.value, order);
                && held == old(held) + {b} && b !in old(held)
                && Fits(b, z.zone, z.MaxOrder()) && Pages(b) !! bad
                && forall x <- Pages(b) :: Local(old(owner)(x), cpu) && owner(x) == Allocated
      ensures forall x: nat | page.None? || x !in Pages(Block(page.value, order)) ::
                Scanned(old(owner)(x), owner(x), cpu, Spoiled(x, order, bad))
      ensures order > 0 ==> pageset == old(pageset)
      ensures var l := old(pageset[cpu].lists); var k := FirstGood(l, bad);
              order == 0 && k < |l| ==> page == Some(l[k]) && TakenOff(old(pageset), pageset, cpu, k + 1)
      ensures order == 0 && page.Some? && FirstGood(old(pageset[cpu].lists), bad) == |old(pageset[cpu].lists)| ==>
                Drawn(old(z.Free()), z.Free(), pageset[cpu].lists, pageset[cpu].batch, bad, page.value, got)
    {
      got := [];
      hide Zone.ListsValid;
      hide HeldOk;
      hide Covered;
      hide PcpsOk;
      hide Agrees;
      hide BlocksOf;
      hide Pages;
      hide Fits;
      hide Spoiled;
      if order == 0 {
        page, got := RmqueuePcplist(cpu, bad);
        SpoiledPage(bad);
        if page.Some? {
          ManagedPage(page.value);
          OnePage(page.value, z.zone, z.MaxOrder());
          Hold(Block(page.value, 0));
        } else {
          EmptyBlocks();
        }
      } else {
        page := RmqueueBlock(order, bad);
        if page.Some? {
          Hold(Block(page.value, order));
        }
      }
    }

    lemma EmptyBlocks()
      requires Held() && z.Free() == {}
      ensures z.Blocks() == {}
    {
      forall b | b in z.Blocks() ensures b.pfn in z.Free() {
        FirstPage(b);
      }
    }

    lemma ManagedPage(x: nat)
      requires Held() && owner(x) != Unmanaged
      ensures x in z.zone && z.MaxOrder() >= 1
    {
    }

    // -------------------------------------------------------------------------
    // Freeing

    /** The caller's last reference to a block goes away. */
    ghost method Release(b: Block)
      requires Held() && Quiet() && b in held
      modifies this`owner, this`held
      ensures Held() && Fits(b, z.zone, z.MaxOrder()) && OnlyInFlight(owner, Pages(b))
      ensures Moved(old(owner), owner, Pages(b), InFlight) && held == old(held) - {b}
    {
      hide Zone.ListsValid;
      hide PcpsOk;
      ReleaseBlock(held, b, z.zone, z.MaxOrder());
      hide HeldOk;
      hide Covered;
      FromCaller(owner, pageset, z.Free(), Covered(held), managed, Pages(b));
      owner := Give(owner, Pages(b), InFlight);
      held := held - {b};
    }

    /** free_the_page on pages in flight: order 0 through the per-CPU cache, larger blocks directly. */
    method FreeThePage(cpu: nat, b: Block)
      requires Held() && CachesBounded(pageset) && cpu < |pageset|
      requires Fits(b, z.zone, z.MaxOrder()) && OnlyInFlight(owner, Pages(b))
      modifies this`pageset, this`owner, z`buddyOrder, z.freeArea
      ensures Valid() && SameLimits(old(pageset), pageset)
      ensures b.order > 0 ==> pageset == old(pageset) && Moved(old(owner), owner, Pages(b), InBuddy)
      ensures b.order == 0 ==>
                (forall x: nat :: owner(x) == old(owner)(x) ||
                                  ((x == b.pfn || old(owner)(x) == InPcp(cpu)) && Local(owner(x), cpu)))
      ensures b.order == 0 ==> Pushed(old(pageset), pageset, cpu, b.pfn)
    {
      hide Zone.ListsValid;
      hide HeldOk;
      hide Covered;
      hide PcpsOk;
      hide Agrees;
      hide BlocksOf;
      hide Fits;
      hide Pages;
      hide CachesBounded;
      if b.order == 0 {
        SinglePage(b);
        FreeUnrefPageCommit(cpu, b.pfn);
      } else {
        GiveToBuddy(b);
      }
    }

    /** __free_pages when the last reference goes: a block with a bad page is dropped, any other is freed. */
    method FreePages(cpu: nat, pfn: nat, order: nat, bad: set<nat>)
      requires Valid() && cpu < |pageset| && Block(pfn, order) in held
      modifies this`pageset, this`owner, this`held, z`buddyOrder, z.freeArea
      ensures Valid() && SameLimits(old(pageset), pageset) && held == old(held) - {Block(pfn, order)}
      ensures forall x <- Pages(Block(pfn, order)) ::
                if Pages(Block(pfn, order)) !! bad then Local(owner(x), cpu) else owner(x) == Leaked
      ensures forall x: nat | x !in Pages(Block(pfn, order)) ::
                owner(x) == old(owner)(x) || (old(owner)(x) == InPcp(cpu) && Local(owner(x), cpu))
      ensures Pages(Block(pfn, order)) !! bad ==>
                if order == 0 then Pushed(old(pageset), pageset, cpu, pfn) else pageset == old(pageset)
    {
      hide Zone.ListsValid;
      hide HeldOk;
      hide Covered;
      hide PcpsOk;
      hide Agrees;
      hide BlocksOf;
      Release(Block(pfn, order));
      var fails := CheckNewPages(pfn, order, bad);
      if fails {
        Drop(Pages(Block(pfn, order)));
      } else {
        FreeThePage(cpu, Block(pfn, order));
        SinglePage(Block(pfn, order));
      }
    }

    // -------------------------------------------------------------------------
    // Boot

    /** The pages of a new block are counted, and in flight. */
    method Manage(b: Block)
      requires Valid() && Fits(b, z.zone, z.MaxOrder()) && Pages(b) !! managed
      modifies this`owner, this`managed, this`managedPages
      ensures Held() && OnlyInFlight(owner, Pages(b)) && Moved(old(owner), owner, Pages(b), InFlight)
      ensures managed == old(managed) + Pages(b) && managedPages == old(managedPages) + Pow2(b.order)
    {
      hide Zone.ListsValid;
      hide HeldOk;
      hide Covered;
      hide PcpsOk;
      hide BlocksOf;
      hide Pages;
      hide Fits;
      hide Pow2;
      hide Agrees;
      PagesCount(b);
      FitsInZone(b, z.zone, z.MaxOrder());
      ToManaged(owner, pageset, z.Free(), Covered(held), managed, Pages(b));
      managedPages := managedPages + Pow2(b.order);
      owner := Give(owner, Pages(b), InFlight);
      managed := managed + Pages(b);
    }

    /** __free_pages_boot_core: a block comes under management and is freed. */
    method FreePagesBootCore(cpu: nat, b: Block)
      requires Valid() && cpu < |pageset| && Fits(b, z.zone, z.MaxOrder()) && Pages(b) !! managed
      modifies this`pageset, this`owner, this`managed, this`managedPages, z`buddyOrder, z.freeArea
      ensures Valid() && SameLimits(old(pageset), pageset)
      ensures managed == old(managed) + Pages(b) && managedPages == old(managedPages) + Pow2(b.order)
      ensures BootFreed(old(owner), owner, cpu, Pages(b))
    {
      hide PageAllocator.Held;
      hide Pages;
      hide Fits;
      hide Pow2;
      hide CachesBounded;
      hide Pushed;
      hide BootFreed;
      SinglePage(b);
      Manage(b);
      ghost var owner1 := owner;
      FreeThePage(cpu, b);
      BootCoreFreed(old(owner), owner1, owner, b, cpu);
    }

    lemma HasOrders()
      requires Valid()
      ensures z.MaxOrder() >= 1
    {
    }

    /** One turn of the splitter's loop. */
    method BootTile(cpu: nat, start: nat, end: nat, ghost start0: nat, ghost managed0: set<nat>, ghost pages0: nat,
                    ghost tiles: seq<Block>) returns (start': nat, ghost tiles': seq<Block>)
      requires Valid() && cpu < |pageset| && 0 < start < end
      requires Booted(managed0, pages0, managed, managedPages, tiles, start0, start, end, z.MaxOrder())
      requires Interval(start0, end - start0) <= z.zone && Interval(start0, end - start0) !! managed0
      modifies this`pageset, this`owner, this`managed, this`managedPages, z`buddyOrder, z.freeArea
      ensures Valid() && SameLimits(old(pageset), pageset) && start < start'
      ensures Booted(managed0, pages0, managed, managedPages, tiles', start0, start', end, z.MaxOrder())
      ensures old(managed) <= managed && BootFreed(old(owner), owner, cpu, managed - old(managed))
    {
      hide *;
      HasOrders();
      var order := TileOrder(start, end, z.MaxOrder());
      BootStep(managed0, pages0, managed, managedPages, tiles, start0, Block(start, order), end, z.MaxOrder(), z.zone);
      FreePagesBootCore(cpu, Block(start, order));
      assert managed - old(managed) == Pages(Block(start, order));
      return start + Pow2(order), tiles + [Block(start, order)];
    }

    /**
     __free_pages_memory: cut [start0, end) into aligned blocks, each as large as its position,
     the end of the range and MAX_ORDER allow, and free them.
     */
    method FreePagesMemory(cpu: nat, start0: nat, end: nat) returns (ghost tiles: seq<Block>)
      requires Valid() && cpu < |pageset| && 0 < start0 <= end
      requires Interval(start0, end - start0) <= z.zone && Interval(start0, end - start0) !! managed
      modifies this`pageset, this`owner, this`managed, this`managedPages, z`buddyOrder, z.freeArea
      ensures Valid() && SameLimits(old(pageset), pageset)
      ensures managed == old(managed) + Interval(start0, end - start0)
      ensures managedPages == old(managedPages) + (end - start0)
      ensures Tiling(tiles, start0, end, end, z.MaxOrder())
      ensures BootFreed(old(owner), owner, cpu, Interval(start0, end - start0))
    {
      hide Zone.ListsValid;
      hide HeldOk;
      hide Covered;
      hide PcpsOk;
      hide BlocksOf;
      hide Agrees;
      hide CachesBounded;
      assert Interval(start0, 0) == {};
      hide Interval;
      NoLimitsChange(pageset);
      hide SameLimits;
      var start := start0;
      tiles := [];
      while start < end
        invariant Valid() && SameLimits(old(pageset), pageset) && cpu < |pageset|
        invariant Booted(old(managed), old(managedPages), managed, managedPages, tiles, start0, start, end, z.MaxOrder())
        invariant old(managed) <= managed && BootFreed(old(owner), owner, cpu, managed - old(managed))
      {
        ghost var owner1, managed1, pageset1 := owner, managed, pageset;
        start, tiles := BootTile(cpu, start, end, start0, old(managed), old(managedPages), tiles);
        LimitsAgain(old(pageset), pageset1, pageset);
        BootFreedMore(old(owner), owner1, owner, cpu, old(managed), managed1, managed);
      }
      assert managed - old(managed) == Interval(start0, end - start0);
    }

    // -------------------------------------------------------------------------
    // Counting

    /** nr_zone_percpu_cache_pages */
    method NrZonePercpuCachePages() returns (n: int)
      ensures n == SumCounts(pageset, |pageset|)
    {
      n := 0;
      var cpu := 0;
      while cpu < |pageset|
        invariant 0 <= cpu <= |pageset| && n == SumCounts(pageset, cpu)
      {
        n := n + pageset[cpu].count;
        cpu := cpu + 1;
      }
    }

    /**
     Conservation: every managed page is counted exactly once, on a buddy list, in a cache, with a
     caller, or dropped; so managed_pages is the sum of the allocator's own counters and those.
     */
    method Account() returns (free: nat, cached: int)
      requires Valid()
      ensures free == |z.Free()| && cached == SumCounts(pageset, |pageset|)
      ensures managedPages == free + cached + |Covered(held)| + |set x | x in managed && owner(x) == Leaked|
    {
      free := z.NrZoneFreePages();
      cached := NrZonePercpuCachePages();
      CachedCount(owner, pageset, z.Free(), Covered(held), managed, |pageset|);
      PartitionCount(owner, pageset, z.Free(), Covered(held), managed);
    }

    /** A page or block that failed its check is simply not put anywhere. */
    ghost method Drop(s: set<nat>)
      requires Held() && AllOwned(owner, s, InFlight)
      modifies this`owner
      ensures Held() && Moved(old(owner), owner, s, Leaked)
    {
      hide Zone.ListsValid;
      hide HeldOk;
      hide Covered;
      hide PcpsOk;
      ToLeaked(owner, pageset, z.Free(), Covered(held), managed, s);
      owner := Give(owner, s, Leaked);
    }
  }

  ghost predicate OnlyInFlight(owner: Ledger, s: set<nat>) {
    forall x: nat :: owner(x) == InFlight <==> x in s
  }

  /** Some page of the same aligned block fails the state check. */
  ghost predicate Spoiled(x: nat, order: nat, bad: set<nat>) {
    exists y :: y in bad && Shr(y, order) == Shr(x, order)
  }

  lemma SpoiledBlock(b: Block, zone: set<nat>, maxOrder: nat, bad: set<nat>)
    requires Fits(b, zone, maxOrder) && exists x :: x in Pages(b) && x in bad
    ensures forall x <- Pages(b) :: Spoiled(x, b.order, bad)
  {
    var y :| y in Pages(b) && y in bad;
    PagesAreCell(b, y);
    forall x | x in Pages(b) ensures Spoiled(x, b.order, bad) {
      PagesAreCell(b, x);
    }
  }

  /** Apart from the pages of s, pages only moved from the buddy lists to being dropped. */
  ghost predicate Dropped(owner: Ledger, owner': Ledger, order: nat, bad: set<nat>, s: set<nat>) {
    && AllOwned(owner, s, InBuddy)
    && forall x: nat | x !in s ::
         owner'(x) == owner(x) || (owner(x) == InBuddy && owner'(x) == Leaked && Spoiled(x, order, bad))
  }

  lemma DroppedTake(owner: Ledger, owner1: Ledger, owner2: Ledger, order: nat, bad: set<nat>, s: set<nat>)
    requires Dropped(owner, owner1, order, bad, {}) && AllOwned(owner1, s, InBuddy)
    requires Moved(owner1, owner2, s, InFlight)
    ensures Dropped(owner, owner2, order, bad, s)
    ensures (forall x: nat :: owner1(x) != InFlight) ==> OnlyInFlight(owner2, s)
  {
  }

  lemma DroppedLeak(owner: Ledger, owner1: Ledger, owner2: Ledger, order: nat, bad: set<nat>, s: set<nat>)
    requires Dropped(owner, owner1, order, bad, s) && OnlyInFlight(owner1, s)
    requires Moved(owner1, owner2, s, Leaked) && forall x <- s :: Spoiled(x, order, bad)
    ensures Dropped(owner, owner2, order, bad, {})
    ensures forall x: nat :: owner2(x) != InFlight
  {
  }

  lemma SpoiledPage(bad: set<nat>)
    ensures forall x: nat :: Spoiled(x, 0, bad) <==> x in bad
  {
  }

  lemma ProperSubsetCount(a: set<nat>, b: set<nat>, x: nat)
    requires a <= b && x in b && x !in a
    ensures |a| < |b|
  {
    assert b == a + (b - a);
  }

  lemma BoundedExcept(pageset: seq<PerCpuPages>, pageset': seq<PerCpuPages>, cpu: nat)
    requires CachesBounded(pageset) && |pageset'| == |pageset| && cpu < |pageset|
    requires forall c | 0 <= c < |pageset| && c != cpu :: pageset'[c] == pageset[c]
    requires pageset'[cpu].count == 0 || pageset'[cpu].count < pageset'[cpu].high
    ensures CachesBounded(pageset')
  {
  }

  lemma DifferenceCount(a: set<nat>, got: seq<nat>)
    requires NoDup(got) && Elems(got) <= a
    ensures |a - Elems(got)| + |got| == |a|
  {
    ElemsCount(got);
    assert a == (a - Elems(got)) + Elems(got);
  }

  /** Pages only moved between the buddy lists and this CPU's cache. */
  ghost predicate LocalMove(owner: Ledger, owner': Ledger, cpu: nat) {
    forall x: nat :: owner'(x) == owner(x) || (Local(owner(x), cpu) && Local(owner'(x), cpu))
  }

  /** The same, except that one of those pages is now in flight. */
  ghost predicate Picked(owner: Ledger, owner': Ledger, cpu: nat, page: nat) {
    && Local(owner(page), cpu) && owner'(page) == InFlight
    && forall x: nat | x != page :: owner'(x) == owner(x) || (Local(owner(x), cpu) && Local(owner'(x), cpu))
  }

  /** The caches of the other CPUs are as they were. */
  ghost predicate OthersKept(pageset: seq<PerCpuPages>, pageset': seq<PerCpuPages>, cpu: nat) {
    && SameLimits(pageset, pageset')
    && forall c | 0 <= c < |pageset| && c != cpu :: pageset'[c] == pageset[c]
  }

  lemma NoLimitsChange(pageset: seq<PerCpuPages>)
    ensures SameLimits(pageset, pageset)
  {
  }

  lemma LimitsAgain(pageset0: seq<PerCpuPages>, pageset1: seq<PerCpuPages>, pageset2: seq<PerCpuPages>)
    requires SameLimits(pageset0, pageset1) && SameLimits(pageset1, pageset2)
    ensures SameLimits(pageset0, pageset2) && |pageset2| == |pageset0|
  {
  }

  ghost predicate SameLimits(pageset: seq<PerCpuPages>, pageset': seq<PerCpuPages>) {
    && |pageset'| == |pageset|
    && forall c | 0 <= c < |pageset| :: pageset'[c].high == pageset[c].high && pageset'[c].batch == pageset[c].batch
  }

  /** On the buddy lists or in this CPU's cache. */
  predicate Local(o: Owner, cpu: nat) { o == InBuddy || o == InPcp(cpu) }

  /** The first n pages of one CPU's list have been taken off it. */
  ghost predicate TakenOff(pageset: seq<PerCpuPages>, pageset': seq<PerCpuPages>, cpu: nat, n: nat) {
    && cpu < |pageset| && n <= |pageset[cpu].lists|
    && var p := pageset[cpu];
    pageset' == pageset[cpu := p.(count := |p.lists| - n, lists := p.lists[n..])]
  }

  lemma ScannedMore(owner0: Ledger, owner1: Ledger, owner2: Ledger, cpu: nat, page: nat, bad: set<nat>)
    requires (forall x: nat :: Scanned(owner0(x), owner1(x), cpu, x in bad)) && Picked(owner1, owner2, cpu, page)
    requires forall x: nat :: owner1(x) != InFlight
    ensures Local(owner0(page), cpu) && OnlyInFlight(owner2, {page})
    ensures forall x: nat | x != page :: Scanned(owner0(x), owner2(x), cpu, x in bad)
  {
  }

  lemma ScannedMove(owner0: Ledger, owner1: Ledger, owner2: Ledger, cpu: nat, bad: set<nat>)
    requires (forall x: nat :: Scanned(owner0(x), owner1(x), cpu, x in bad) && owner1(x) != InFlight)
    requires LocalMove(owner1, owner2, cpu)
    ensures forall x: nat :: Scanned(owner0(x), owner2(x), cpu, x in bad) && owner2(x) != InFlight
  {
  }

  lemma ScannedDrop(owner0: Ledger, owner2: Ledger, owner3: Ledger, cpu: nat, page: nat, bad: set<nat>)
    requires Local(owner0(page), cpu) && page in bad && OnlyInFlight(owner2, {page}) && Moved(owner2, owner3, {page}, Leaked)
    requires forall x: nat | x != page :: Scanned(owner0(x), owner2(x), cpu, x in bad)
    ensures forall x: nat :: owner3(x) != InFlight && Scanned(owner0(x), owner3(x), cpu, x in bad)
  {
  }

  lemma NothingScanned(owner: Ledger, cpu: nat, bad: set<nat>)
    ensures forall x: nat :: Scanned(owner(x), owner(x), cpu, x in bad)
  {
  }

  lemma TakenOffIs(pageset0: seq<PerCpuPages>, pageset: seq<PerCpuPages>, cpu: nat, n: nat)
    requires OthersKept(pageset0, pageset, cpu) && cpu < |pageset| && PcpOk(pageset[cpu])
    ensures n <= |pageset0[cpu].lists| && pageset[cpu].lists == pageset0[cpu].lists[n..] ==> TakenOff(pageset0, pageset, cpu, n)
  {
    if n <= |pageset0[cpu].lists| && pageset[cpu].lists == pageset0[cpu].lists[n..] {
      assert pageset == pageset0[cpu := pageset[cpu]];
    }
  }

  /** A page has been put in front of one CPU's list, and a full list has given its last batch away. */
  ghost predicate Pushed(pageset: seq<PerCpuPages>, pageset': seq<PerCpuPages>, cpu: nat, page: nat) {
    && cpu < |pageset|
    && var p := pageset[cpu]; var l := [page] + p.lists;
    var keep := if |l| >= p.high then |l| - p.batch else |l|;
    0 <= keep <= |l| && pageset' == pageset[cpu := p.(count := keep, lists := l[..keep])]
  }

  /** The position of the first page that passes the state check. */
  ghost function FirstGood(l: seq<nat>, bad: set<nat>): (k: nat)
    ensures k <= |l| && (k < |l| ==> l[k] !in bad) && forall i | 0 <= i < k :: l[i] in bad
  {
    if l == [] || l[0] !in bad then 0 else 1 + FirstGood(l[1..], bad)
  }

  /** A batch of pages has left the buddy lists; it is short only if these are empty now. */
  ghost predicate IsBatch(free: set<nat>, free': set<nat>, batch: int, got: seq<nat>) {
    && NoDup(got) && Elems(got) <= free && free' == free - Elems(got)
    && |got| <= batch && (|got| == batch || free' == {})
  }

  /** So its size is that of a batch, or of what there was. */
  lemma BatchSize(free: set<nat>, free': set<nat>, batch: int, got: seq<nat>)
    requires IsBatch(free, free', batch, got)
    ensures |got| == if |free| < batch then |free| else batch
    ensures |free'| == |free| - |got|
  {
    DifferenceCount(free, got);
  }

  /** The next page of a list, which has been refilled if it was empty. */
  ghost predicate NextOf(l: seq<nat>, free: set<nat>, l': seq<nat>, free': set<nat>, batch: int, page: nat, got: seq<nat>) {
    if l != [] then page == l[0] && l' == l[1..] && free' == free
    else IsBatch(free, free', batch, got) && got != [] && page == got[0] && l' == got[1..]
  }

  /** Batches have left the buddy lists; the last one is `got`, and all pages of the others fail the check. */
  ghost predicate LastBatch(free: set<nat>, free': set<nat>, batch: int, bad: set<nat>, got: seq<nat>) {
    && NoDup(got) && Elems(got) <= free - free' && free' <= free
    && |got| <= batch && (|got| == batch || free' == {})
    && forall x | x in free && x !in free' :: x in got || x in bad
  }

  /** The page is the first of such a batch that passes the check; those behind it are in the cache. */
  ghost predicate Drawn(free: set<nat>, free': set<nat>, l': seq<nat>, batch: int, bad: set<nat>, page: nat, got: seq<nat>) {
    && LastBatch(free, free', batch, bad, got)
    && var j := FirstGood(got, bad); j < |got| && page == got[j] && l' == got[j + 1..]
  }

  /** Without pages that fail the check it is the first page of the first batch. */
  lemma DrawnGood(free: set<nat>, free': set<nat>, l': seq<nat>, batch: int, page: nat, got: seq<nat>)
    requires Drawn(free, free', l', batch, {}, page, got)
    ensures IsBatch(free, free', batch, got) && got == [page] + l'
    ensures var n := if |free| < batch then |free| else batch; |free'| == |free| - n && |l'| == n - 1
  {
    assert free' == free - Elems(got);
    BatchSize(free, free', batch, got);
  }

  /** The first i pages of the cache, or of the last batch, have been dropped. */
  ghost predicate Consuming(l0: seq<nat>, free0: set<nat>, l: seq<nat>, free: set<nat>, batch: int, bad: set<nat>,
                            got: seq<nat>, i: nat) {
    var cur := if got == [] then l0 else got;
    && i <= |cur| && l == cur[i..] && (forall j | 0 <= j < i :: cur[j] in bad)
    && if got == [] then free == free0 else FirstGood(l0, bad) == |l0| && LastBatch(free0, free, batch, bad, got)
  }

  lemma NothingConsumed(l: seq<nat>, free: set<nat>, batch: int, bad: set<nat>)
    ensures Consuming(l, free, l, free, batch, bad, [], 0)
  {
    assert l[0..] == l;
  }

  /** When the list is empty and stays so, it had no good page. */
  lemma NothingGood(l0: seq<nat>, free0: set<nat>, free: set<nat>, batch: int, bad: set<nat>, got: seq<nat>, i: nat)
    requires Consuming(l0, free0, [], free, batch, bad, got, i)
    ensures FirstGood(l0, bad) == |l0|
  {
    assert got == [] ==> i == |l0|;
  }

  lemma ConsumeNext(l0: seq<nat>, free0: set<nat>, l: seq<nat>, free: set<nat>, batch: int, bad: set<nat>, got: seq<nat>, i: nat,
                    l': seq<nat>, free': set<nat>, got1: seq<nat>, page: nat)
    requires Consuming(l0, free0, l, free, batch, bad, got, i) && NextOf(l, free, l', free', batch, page, got1)
    ensures var got', i' := if l == [] then got1 else got, if l == [] then 0 else i;
            if page in bad then Consuming(l0, free0, l', free', batch, bad, got', i' + 1)
            else if FirstGood(l0, bad) == |l0| then Drawn(free0, free', l', batch, bad, page, got')
            else i' == FirstGood(l0, bad) < |l0| && page == l0[i'] && l' == l0[i' + 1..] && free' == free0
  {
    if l == [] { NothingGood(l0, free0, free, batch, bad, got, i); }
    var got', i' := if l == [] then got1 else got, if l == [] then 0 else i;
    var cur := if got' == [] then l0 else got';
    if l == [] {
      var past := if got == [] then l0 else got;
      forall x | x in free0 && x !in free' ensures x in got1 || x in bad {
        if x !in free && x in past {
          var j :| 0 <= j < |past| && past[j] == x;
          assert past[j] in bad;
        }
      }
    }
    assert page == cur[i'] && l' == cur[i' + 1..];
    if page !in bad { FirstGoodIs(cur, bad, i'); }
  }

  lemma FirstGoodIs(l: seq<nat>, bad: set<nat>, i: nat)
    requires i < |l| && l[i] !in bad && forall j | 0 <= j < i :: l[j] in bad
    ensures FirstGood(l, bad) == i
  {
  }

  /** What an allocation attempt may do to a page it does not return. */
  predicate Scanned(before: Owner, after: Owner, cpu: nat, spoiled: bool) {
    after == before || (Local(before, cpu) && (Local(after, cpu) || (after == Leaked && spoiled)))
  }

  /** The pages of `head` have been moved off the tail of one CPU's list, into flight. */
  ghost predicate Collected(pageset0: seq<PerCpuPages>, owner0: Ledger, pageset: seq<PerCpuPages>, owner: Ledger,
                            cpu: nat, head: seq<nat>) {
    && cpu < |pageset0|
    && var l := pageset0[cpu].lists;
    && |head| <= |l| && NoDup(head)
    && Elems(head) == Elems(l[|l| - |head|..])
    && pageset == pageset0[cpu := pageset0[cpu].(count := |l| - |head|, lists := l[..|l| - |head|])]
    && Moved(owner0, owner, Elems(head), InFlight)
  }

  lemma CollectedNone(pageset: seq<PerCpuPages>, owner: Ledger, cpu: nat)
    requires cpu < |pageset| && PcpOk(pageset[cpu])
    ensures Collected(pageset, owner, pageset, owner, cpu, [])
  {
    var l := pageset[cpu].lists;
    assert l[..|l|] == l && l[|l|..] == [];
  }

  lemma CollectedStep(pageset0: seq<PerCpuPages>, owner0: Ledger, pageset: seq<PerCpuPages>, owner: Ledger,
                      owner': Ledger, cpu: nat, head: seq<nat>, page: nat)
    requires Collected(pageset0, owner0, pageset, owner, cpu, head) && NoDup(pageset0[cpu].lists)
    requires var l := pageset[cpu].lists; l != [] && page == l[|l| - 1]
    requires Moved(owner, owner', {page}, InFlight)
    ensures var l := pageset[cpu].lists;
            Collected(pageset0, owner0, pageset[cpu := pageset[cpu].(count := |l| - 1, lists := l[..|l| - 1])],
                      owner', cpu, head + [page])
  {
    var l0, l := pageset0[cpu].lists, pageset[cpu].lists;
    var k := |l0| - |head| - 1;
    assert l == l0[..k + 1] && page == l0[k] && l[..|l| - 1] == l0[..k];
    assert l0[k..] == [page] + l0[k + 1..];
    assert page !in l0[k + 1..];
    assert page !in Elems(head);
    ElemsAppend(head, page);
    assert Elems(l0[k..]) == Elems(l0[k + 1..]) + {page};
  }
}
