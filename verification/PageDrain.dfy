/**
 The search for a free block in kernel/mm/page_alloc.c: when the buddy lists and this CPU's cache have none, the caches
 of the other CPUs are drained, and there is another attempt if the last of them was not empty.
 */
module PageDrain {
  import opened Dyadic
  import opened FreeBlocks
  import opened Lists
  import opened BuddyZone
  import opened PageAlloc
  import opened Options

  // ---------------------------------------------------------------------------
  // What there is to be found

  /** Within reach of a CPU: on the buddy lists or, for a single page, in its own cache. */
  predicate Near(o: Owner, cpu: nat, order: nat) { o == InBuddy || (order == 0 && o == InPcp(cpu)) }

  /** ... or in the cache of another CPU. */
  predicate Spare(o: Owner, cpu: nat, order: nat) { Near(o, cpu, order) || (o.InPcp? && o.cpu != cpu) }

  ghost predicate HasNear(owner: Ledger, zone: set<nat>, maxOrder: nat, cpu: nat, order: nat) {
    exists b :: Fits(b, zone, maxOrder) && b.order == order && forall x <- Pages(b) :: Near(owner(x), cpu, order)
  }

  ghost predicate HasSpare(owner: Ledger, zone: set<nat>, maxOrder: nat, cpu: nat, order: nat) {
    exists b :: Fits(b, zone, maxOrder) && b.order == order && forall x <- Pages(b) :: Spare(owner(x), cpu, order)
  }

  /** In nobody's use. */
  predicate Loose(o: Owner) { o == InBuddy || o.InPcp? }

  /** What the search may do to a page that it does not return. */
  predicate Shifted(before: Owner, after: Owner, spoiled: bool) {
    after == before || (Loose(before) && (Loose(after) || (after == Leaked && spoiled)))
  }

  /** The pages of the other CPUs' caches join the buddy lists. */
  function Merged(o: Owner, cpu: nat): Owner { if o.InPcp? && o.cpu != cpu then InBuddy else o }

  lemma MergedNear(owner: Ledger, owner': Ledger, zone: set<nat>, maxOrder: nat, cpu: nat, order: nat)
    requires forall x: nat :: owner'(x) == Merged(owner(x), cpu)
    ensures HasNear(owner', zone, maxOrder, cpu, order) <==> HasSpare(owner, zone, maxOrder, cpu, order)
  {
    hide Fits;
    hide Pages;
    forall x: nat ensures Near(owner'(x), cpu, order) <==> Spare(owner(x), cpu, order) {
    }
  }

  /** What rmqueue finds was within reach. */
  lemma FoundNear(a: PageAllocator, owner: Ledger, pageset: seq<PerCpuPages>, free: set<nat>, inUse: set<nat>,
                  managed: set<nat>, cpu: nat, b: Block)
    requires a.Valid() && cpu < |a.pageset| && |pageset| == |a.pageset| && Fits(b, a.z.zone, a.z.MaxOrder())
    requires Agrees(owner, pageset, free, inUse, managed) && (b.order > 0 ==> pageset == a.pageset)
    requires forall x <- Pages(b) :: Local(owner(x), cpu) && a.owner(x) == Allocated
    ensures HasNear(owner, a.z.zone, a.z.MaxOrder(), cpu, b.order)
  {
    hide HeldOk;
    hide Zone.ListsValid;
    hide PcpsOk;
    hide Fits;
    forall x | x in Pages(b) ensures Near(owner(x), cpu, b.order) {
      assert x in a.pageset[cpu].lists <==> a.owner(x) == InPcp(cpu);
      assert x in pageset[cpu].lists <==> owner(x) == InPcp(cpu);
    }
  }

  /** When rmqueue finds nothing, no page has moved and there was nothing within reach. */
  lemma FoundNone(a: PageAllocator, owner: Ledger, pageset: seq<PerCpuPages>, free: set<nat>, inUse: set<nat>,
                  managed: set<nat>, cpu: nat, order: nat)
    requires a.Valid() && cpu < |a.pageset| && |pageset| == |a.pageset|
    requires Agrees(owner, pageset, free, inUse, managed) && (order > 0 ==> pageset == a.pageset)
    requires forall x: nat :: Scanned(owner(x), a.owner(x), cpu, false)
    requires forall b | b in a.z.Blocks() :: b.order < order
    requires order == 0 ==> a.z.Free() == {} && a.pageset[cpu].lists == []
    ensures forall x: nat :: a.owner(x) == owner(x)
    ensures !HasNear(owner, a.z.zone, a.z.MaxOrder(), cpu, order)
  {
    hide HeldOk;
    hide Zone.ListsValid;
    hide PcpsOk;
    hide BlocksOf;
    hide Covered;
    forall x: nat ensures a.owner(x) == owner(x) {
      assert x in a.pageset[cpu].lists <==> a.owner(x) == InPcp(cpu);
      assert x in pageset[cpu].lists <==> owner(x) == InPcp(cpu);
      assert x in a.z.Free() <==> a.owner(x) == InBuddy;
    }
    NothingNear(a, cpu, order);
  }

  lemma NothingNear(a: PageAllocator, cpu: nat, order: nat)
    requires a.Valid() && cpu < |a.pageset| && (forall b | b in a.z.Blocks() :: b.order < order)
    requires order == 0 ==> a.z.Free() == {} && a.pageset[cpu].lists == []
    ensures !HasNear(a.owner, a.z.zone, a.z.MaxOrder(), cpu, order)
  {
    hide HeldOk;
    hide PcpsOk;
    if HasNear(a.owner, a.z.zone, a.z.MaxOrder(), cpu, order) {
      var b :| Fits(b, a.z.zone, a.z.MaxOrder()) && b.order == order && forall x <- Pages(b) :: Near(a.owner(x), cpu, order);
      FirstPage(b);
      forall x | x in Pages(b) ensures x in a.z.Free() {
        assert x in a.pageset[cpu].lists <==> a.owner(x) == InPcp(cpu);
      }
      var c := CoveredByOne(a.z.Blocks(), a.z.zone, a.z.MaxOrder(), b);
      SmallerInside(b, c);
    }
  }

  // ---------------------------------------------------------------------------
  // Draining the other CPUs

  /** The last CPU below n other than this one. */
  function LastOther(cpu: nat, n: nat): Option<nat> {
    if n > 0 && n - 1 != cpu then Some(n - 1) else if n > 1 then Some(n - 2) else None
  }

  /** Its cache is not empty. */
  predicate Train(pageset: seq<PerCpuPages>, cpu: nat, n: nat)
    requires n <= |pageset|
  {
    LastOther(cpu, n).Some? && pageset[LastOther(cpu, n).value].lists != []
  }

  ghost predicate OthersEmpty(pageset: seq<PerCpuPages>, cpu: nat) {
    forall c | 0 <= c < |pageset| && c != cpu :: pageset[c].lists == []
  }

  lemma TrainKept(pageset: seq<PerCpuPages>, pageset': seq<PerCpuPages>, cpu: nat)
    requires OthersKept(pageset, pageset', cpu) && cpu < |pageset|
    ensures Train(pageset', cpu, |pageset'|) == Train(pageset, cpu, |pageset|)
    ensures OthersEmpty(pageset, cpu) ==> OthersEmpty(pageset', cpu) && !Train(pageset, cpu, |pageset|)
  {
  }

  /** The caches of the CPUs below k, except this one's, have been emptied into the buddy lists. */
  ghost predicate Drained(pageset: seq<PerCpuPages>, pageset': seq<PerCpuPages>, owner: Ledger, owner': Ledger,
                          cpu: nat, k: nat) {
    && |pageset'| == |pageset|
    && (forall c | 0 <= c < |pageset| ::
          pageset'[c] == if c < k && c != cpu then pageset[c].(count := 0, lists := []) else pageset[c])
    && (forall x: nat ::
          owner'(x) == if owner(x).InPcp? && owner(x).cpu < k && owner(x).cpu != cpu then InBuddy else owner(x))
  }

  lemma DrainedMore(pageset0: seq<PerCpuPages>, pageset1: seq<PerCpuPages>, pageset2: seq<PerCpuPages>,
                    owner0: Ledger, owner1: Ledger, owner2: Ledger, cpu: nat, k: nat)
    requires Drained(pageset0, pageset1, owner0, owner1, cpu, k) && k < |pageset0| && k != cpu
    requires pageset2 == pageset1[k := pageset1[k].(count := 0, lists := [])]
    requires Moved(owner1, owner2, Elems(pageset1[k].lists), InBuddy)
    requires forall x: nat :: x in pageset1[k].lists <==> owner1(x) == InPcp(k)
    ensures Drained(pageset0, pageset2, owner0, owner2, cpu, k + 1)
  {
    forall x: nat ensures x in Elems(pageset1[k].lists) <==> owner0(x) == InPcp(k) {
    }
  }

  lemma DrainedAll(a: PageAllocator, pageset: seq<PerCpuPages>, owner: Ledger, cpu: nat)
    requires a.Valid() && Drained(pageset, a.pageset, owner, a.owner, cpu, |pageset|)
    requires forall x: nat :: owner(x).InPcp? ==> owner(x).cpu < |pageset|
    ensures OthersEmpty(a.pageset, cpu) && forall x: nat :: a.owner(x) == Merged(owner(x), cpu)
  {
  }

  lemma CacheIs(a: PageAllocator, c: nat)
    requires a.Held() && c < |a.pageset|
    ensures forall x: nat :: x in a.pageset[c].lists <==> a.owner(x) == InPcp(c)
    ensures forall x: nat :: a.owner(x).InPcp? ==> a.owner(x).cpu < |a.pageset|
  {
    hide HeldOk;
    hide PcpsOk;
  }

  /** The loop over the other CPUs: all their caches are emptied, and the result is that of the last one. */
  method DrainOthers(a: PageAllocator, cpu: nat) returns (train: bool)
    requires a.Valid() && cpu < |a.pageset|
    modifies a`pageset, a`owner, a.z`buddyOrder, a.z.freeArea
    ensures a.Valid() && Drained(old(a.pageset), a.pageset, old(a.owner), a.owner, cpu, |a.pageset|)
    ensures OthersEmpty(a.pageset, cpu) && (forall x: nat :: a.owner(x) == Merged(old(a.owner)(x), cpu))
    ensures SameLimits(old(a.pageset), a.pageset)
    ensures train == Train(old(a.pageset), cpu, |a.pageset|)
  {
    hide PageAllocator.Held;
    hide Moved;
    hide Elems;
    CacheIs(a, cpu);
    train := false;
    var c := 0;
    while c < |a.pageset|
      invariant 0 <= c <= |a.pageset| == |old(a.pageset)| && a.Valid()
      invariant Drained(old(a.pageset), a.pageset, old(a.owner), a.owner, cpu, c)
      invariant train == Train(old(a.pageset), cpu, c)
    {
      if c != cpu {
        ghost var pageset, owner := a.pageset, a.owner;
        CacheIs(a, c);
        train := a.DrainPagesZone(c);
        DrainedMore(old(a.pageset), pageset, a.pageset, old(a.owner), owner, a.owner, cpu, c);
      }
      c := c + 1;
    }
    DrainedAll(a, old(a.pageset), old(a.owner), cpu);
  }

  // ---------------------------------------------------------------------------
  // Allocation

  lemma ShiftedMore(owner0: Ledger, owner1: Ledger, owner2: Ledger, cpu: nat, order: nat, bad: set<nat>, s: set<nat>)
    requires forall x: nat :: Shifted(owner0(x), owner1(x), Spoiled(x, order, bad))
    requires forall x: nat | x !in s :: Scanned(owner1(x), owner2(x), cpu, Spoiled(x, order, bad))
    ensures forall x: nat | x !in s :: Shifted(owner0(x), owner2(x), Spoiled(x, order, bad))
    ensures forall x: nat | Local(owner1(x), cpu) :: Loose(owner0(x))
  {
    hide Spoiled;
  }

  lemma ShiftedMerge(owner0: Ledger, owner1: Ledger, owner2: Ledger, cpu: nat, order: nat, bad: set<nat>)
    requires forall x: nat :: Shifted(owner0(x), owner1(x), Spoiled(x, order, bad)) && owner2(x) == Merged(owner1(x), cpu)
    ensures forall x: nat :: Shifted(owner0(x), owner2(x), Spoiled(x, order, bad))
  {
    hide Spoiled;
  }

  /** The CPU's own cache has a page that passes the state check. */
  ghost predicate InCache(pageset: seq<PerCpuPages>, cpu: nat, order: nat, bad: set<nat>)
    requires cpu < |pageset|
  {
    order == 0 && FirstGood(pageset[cpu].lists, bad) < |pageset[cpu].lists|
  }

  /** What is found at the first attempt is within reach, and the first good page of the CPU's own cache if it has one. */
  ghost predicate AtOnce(pageset: seq<PerCpuPages>, pageset': seq<PerCpuPages>, owner: Ledger, owner': Ledger,
                         cpu: nat, order: nat, bad: set<nat>, page: Option<nat>)
    requires cpu < |pageset|
  {
    && OthersKept(pageset, pageset', cpu) && (order > 0 ==> pageset' == pageset)
    && (InCache(pageset, cpu, order, bad) ==>
          var k := FirstGood(pageset[cpu].lists, bad);
          page == Some(pageset[cpu].lists[k]) && TakenOff(pageset, pageset', cpu, k + 1))
    && (page.Some? ==> forall x <- Pages(Block(page.value, order)) :: Local(owner(x), cpu))
    && forall x: nat | page.None? || x !in Pages(Block(page.value, order)) ::
         Scanned(owner(x), owner'(x), cpu, Spoiled(x, order, bad))
  }

  lemma TooLarge(owner: Ledger, zone: set<nat>, maxOrder: nat, cpu: nat, order: nat)
    requires order >= maxOrder
    ensures !HasNear(owner, zone, maxOrder, cpu, order) && !HasSpare(owner, zone, maxOrder, cpu, order)
  {
  }

  /** With empty caches elsewhere, what is not within reach is nowhere. */
  lemma NearIsSpare(a: PageAllocator, owner: Ledger, pageset: seq<PerCpuPages>, free: set<nat>, inUse: set<nat>,
                    managed: set<nat>, cpu: nat, order: nat)
    requires Agrees(owner, pageset, free, inUse, managed) && OthersEmpty(pageset, cpu)
    requires forall x: nat :: a.owner(x) == Merged(owner(x), cpu)
    requires !HasNear(owner, a.z.zone, a.z.MaxOrder(), cpu, order)
    ensures !HasSpare(a.owner, a.z.zone, a.z.MaxOrder(), cpu, order)
  {
    hide Fits;
    hide Pages;
    forall x: nat ensures Spare(a.owner(x), cpu, order) ==> Near(owner(x), cpu, order) {
    }
  }

  /**
   __alloc_pages.  The caller gets a block of pages that nobody used; every other page is where it was, or still in
   nobody's use, or dropped because of a bad page.

   A failed search has emptied the other CPUs' caches.  It has looked at what they had only if the last of them was not
   empty: without bad pages, a block is found exactly if there is one within reach, or one with the pages of the other
   caches and the last of these is not empty.
   */
  method AllocPages(a: PageAllocator, cpu: nat, order: nat, bad: set<nat>) returns (page: Option<nat>)
    requires a.Valid() && cpu < |a.pageset|
    modifies a`pageset, a`owner, a`held, a.z`buddyOrder, a.z.freeArea
    ensures a.Valid() && SameLimits(old(a.pageset), a.pageset)
    ensures page.None? ==> a.held == old(a.held) && (order < a.z.MaxOrder() ==> OthersEmpty(a.pageset, cpu))
    ensures page.Some? ==>
              var b := Block(page.value, order);
              && a.held == old(a.held) + {b} && b !in old(a.held)
              && Fits(b, a.z.zone, a.z.MaxOrder()) && Pages(b) !! bad
              && forall x <- Pages(b) :: Loose(old(a.owner)(x)) && a.owner(x) == Allocated
    ensures forall x: nat | page.None? || x !in Pages(Block(page.value, order)) ::
              Shifted(old(a.owner)(x), a.owner(x), Spoiled(x, order, bad))
    ensures bad == {} ==>
              (page.Some? <==> HasNear(old(a.owner), a.z.zone, a.z.MaxOrder(), cpu, order)
                               || (Train(old(a.pageset), cpu, |a.pageset|)
                                   && HasSpare(old(a.owner), a.z.zone, a.z.MaxOrder(), cpu, order)))
    ensures page.None? && (Train(old(a.pageset), cpu, |a.pageset|) || OthersEmpty(old(a.pageset), cpu)) ==>
              !HasSpare(a.owner, a.z.zone, a.z.MaxOrder(), cpu, order)
    ensures (bad == {} && HasNear(old(a.owner), a.z.zone, a.z.MaxOrder(), cpu, order))
            || (order < a.z.MaxOrder() && InCache(old(a.pageset), cpu, order, bad)) ==>
              page.Some? && AtOnce(old(a.pageset), a.pageset, old(a.owner), a.owner, cpu, order, bad, page)
  {
    hide PageAllocator.Held;
    hide Pages;
    hide Fits;
    hide Spoiled;
    hide InCache;
    hide HasNear;
    hide HasSpare;
    hide Train;
    NoLimitsChange(a.pageset);
    hide SameLimits;
    if order >= a.z.MaxOrder() {
      TooLarge(a.owner, a.z.zone, a.z.MaxOrder(), cpu, order);
      return None;
    }
    ghost var again := false;
    while true
      invariant a.Valid() && SameLimits(old(a.pageset), a.pageset) && a.held == old(a.held)
      invariant forall x: nat :: Shifted(old(a.owner)(x), a.owner(x), Spoiled(x, order, bad))
      invariant !again ==> a.pageset == old(a.pageset) && a.owner == old(a.owner)
      invariant again ==> !InCache(old(a.pageset), cpu, order, bad) && OthersEmpty(a.pageset, cpu)
      invariant again ==> Train(old(a.pageset), cpu, |a.pageset|)
      invariant again && bad == {} ==> !HasNear(old(a.owner), a.z.zone, a.z.MaxOrder(), cpu, order)
      invariant again && bad == {} ==> forall x: nat :: a.owner(x) == Merged(old(a.owner)(x), cpu)
      decreases if again then 0 else 1
    {
      ghost var owner1, pageset1 := a.owner, a.pageset;
      page := Attempt(a, cpu, order, bad);
      ShiftedMore(old(a.owner), owner1, a.owner, cpu, order, bad, if page.None? then {} else Pages(Block(page.value, order)));
      if again && bad == {} { MergedNear(old(a.owner), owner1, a.z.zone, a.z.MaxOrder(), cpu, order); }
      LimitsAgain(old(a.pageset), pageset1, a.pageset);
      if page.Some? {
        return;
      }
      TrainKept(pageset1, a.pageset, cpu);
      AgreesNow(a);
      ghost var owner2, pageset2, free2, inUse2 := a.owner, a.pageset, a.z.Free(), Covered(a.held);
      var train := DrainOthers(a, cpu);
      LimitsAgain(old(a.pageset), pageset2, a.pageset);
      ShiftedMerge(old(a.owner), owner2, a.owner, cpu, order, bad);
      if !train {
        if OthersEmpty(pageset1, cpu) { NearIsSpare(a, owner2, pageset2, free2, inUse2, a.managed, cpu, order); }
        return;
      }
      again := true;
    }
  }

  lemma NothingSpoiled(order: nat)
    ensures forall x: nat :: !Spoiled(x, order, {})
  {
  }

  lemma AgreesNow(a: PageAllocator)
    requires a.Valid()
    ensures Agrees(a.owner, a.pageset, a.z.Free(), Covered(a.held), a.managed)
  {
  }

  /** One attempt: without bad pages it finds a block exactly if there is one within reach, and else moves nothing. */
  method Attempt(a: PageAllocator, cpu: nat, order: nat, bad: set<nat>) returns (page: Option<nat>)
    requires a.Valid() && cpu < |a.pageset| && order < a.z.MaxOrder()
    modifies a`pageset, a`owner, a`held, a.z`buddyOrder, a.z.freeArea
    ensures a.Valid() && AtOnce(old(a.pageset), a.pageset, old(a.owner), a.owner, cpu, order, bad, page)
    ensures page.None? ==> a.held == old(a.held) && !InCache(old(a.pageset), cpu, order, bad)
    ensures page.Some? ==>
              var b := Block(page.value, order);
              && a.held == old(a.held) + {b} && b !in old(a.held)
              && Fits(b, a.z.zone, a.z.MaxOrder()) && Pages(b) !! bad && AllOwned(a.owner, Pages(b), Allocated)
    ensures bad == {} ==> (page.Some? <==> HasNear(old(a.owner), a.z.zone, a.z.MaxOrder(), cpu, order))
    ensures bad == {} && page.None? ==> forall x: nat :: a.owner(x) == old(a.owner)(x)
    ensures page.None? ==> !HasNear(a.owner, a.z.zone, a.z.MaxOrder(), cpu, order)
  {
    hide Fits;
    hide Spoiled;
    AgreesNow(a);
    ghost var got;
    page, got := a.Rmqueue(cpu, order, bad);
    NothingSpoiled(order);
    if page.None? {
      NothingNear(a, cpu, order);
      if bad == {} {
        FoundNone(a, old(a.owner), old(a.pageset), old(a.z.Free()), old(Covered(a.held)), old(a.managed), cpu, order);
      }
    } else {
      FoundNear(a, old(a.owner), old(a.pageset), old(a.z.Free()), old(Covered(a.held)), old(a.managed),
                cpu, Block(page.value, order));
    }
  }

  // ---------------------------------------------------------------------------
  // A page that is not found

  /** A free page in the cache of another CPU, none within reach, and the last other cache empty. */
  ghost predicate Overlooked(a: PageAllocator, cpu: nat, x: nat)
    reads a
  {
    && cpu < |a.pageset| && a.owner(x).InPcp? && a.owner(x).cpu != cpu
    && (forall y: nat :: !Near(a.owner(y), cpu, 0))
    && !Train(a.pageset, cpu, |a.pageset|)
  }

  /** In every such state the allocation of a single page fails although there is one. */
  method SearchMayMiss(a: PageAllocator, cpu: nat, x: nat) returns (page: Option<nat>)
    requires a.Valid() && Overlooked(a, cpu, x)
    modifies a`pageset, a`owner, a`held, a.z`buddyOrder, a.z.freeArea
    ensures a.Valid() && page.None? && HasSpare(old(a.owner), a.z.zone, a.z.MaxOrder(), cpu, 0)
  {
    a.ManagedPage(x);
    OnePage(x, a.z.zone, a.z.MaxOrder());
    NoneNear(a.owner, a.z.zone, a.z.MaxOrder(), cpu);
    hide PageAllocator.Held;
    page := AllocPages(a, cpu, 0, {});
  }

  lemma NoneNear(owner: Ledger, zone: set<nat>, maxOrder: nat, cpu: nat)
    requires forall y: nat :: !Near(owner(y), cpu, 0)
    ensures !HasNear(owner, zone, maxOrder, cpu, 0)
  {
    forall b: Block ensures b.pfn in Pages(b) { FirstPage(b); }
  }

  /** Where there is no block for a single page, there is no free page. */
  lemma NoneSpare(a: PageAllocator, cpu: nat)
    requires a.Valid() && cpu < |a.pageset| && !HasSpare(a.owner, a.z.zone, a.z.MaxOrder(), cpu, 0)
    ensures forall x: nat :: !Loose(a.owner(x))
  {
    forall x: nat ensures !Loose(a.owner(x)) {
      if Loose(a.owner(x)) {
        a.ManagedPage(x);
        OnePage(x, a.z.zone, a.z.MaxOrder());
      }
    }
  }

  lemma MoreHeld(managed: set<nat>, held: set<Block>, b: Block)
    requires Pages(b) <= managed - Covered(held)
    ensures |managed - Covered(held + {b})| < |managed - Covered(held)|
  {
    CoverAdd(held, b);
    FirstPage(b);
    ProperSubsetCount(managed - Covered(held + {b}), managed - Covered(held), b.pfn);
  }

  /** One more single page is in use, or there are no more. */
  method TakeOne(a: PageAllocator, cpu: nat) returns (page: Option<nat>)
    requires a.Valid() && cpu < |a.pageset|
    modifies a`pageset, a`owner, a`held, a.z`buddyOrder, a.z.freeArea
    ensures a.Valid() && SameLimits(old(a.pageset), a.pageset)
    ensures page.None? ==> a.held == old(a.held) && forall x: nat :: !Loose(a.owner(x))
    ensures page.Some? ==> a.held == old(a.held) + {Block(page.value, 0)}
                           && Pages(Block(page.value, 0)) <= a.managed - Covered(old(a.held))
  {
    hide PageAllocator.Held;
    a.HasOrders();
    hide Train;
    hide HasNear;
    hide HasSpare;
    hide AtOnce;
    hide Covered;
    hide Pages;
    hide Fits;
    hide SameLimits;
    hide Shifted;
    UnheldLoose(a);
    ghost var pageset0 := a.pageset;
    page := AllocPages(a, cpu, 0, {});
    if page.None? {
      // the caches of the others are empty now
      UnheldLoose(a);
      ghost var pageset1 := a.pageset;
      LimitsAgain(pageset0, pageset1, pageset1);
      page := AllocPages(a, cpu, 0, {});
      LimitsAgain(pageset0, pageset1, a.pageset);
      if page.None? { NoneSpare(a, cpu); }
    }
  }

  /** One CPU allocates single pages until there are no more. */
  method TakeAll(a: PageAllocator, cpu: nat)
    requires a.Valid() && cpu < |a.pageset|
    modifies a`pageset, a`owner, a`held, a.z`buddyOrder, a.z.freeArea
    ensures a.Valid() && SameLimits(old(a.pageset), a.pageset) && old(a.held) <= a.held
    ensures forall x: nat :: !Loose(a.owner(x))
  {
    hide PageAllocator.Held;
    hide Covered;
    hide Pages;
    hide CachesBounded;
    hide PageAllocator.Quiet;
    NoLimitsChange(a.pageset);
    hide SameLimits;
    while true
      invariant a.Valid() && SameLimits(old(a.pageset), a.pageset) && cpu < |a.pageset|
      invariant old(a.held) <= a.held && a.managed == old(a.managed)
      decreases |a.managed - Covered(a.held)|
    {
      ghost var held, pageset := a.held, a.pageset;
      var page := TakeOne(a, cpu);
      LimitsAgain(old(a.pageset), pageset, a.pageset);
      if page.None? {
        return;
      }
      MoreHeld(a.managed, held, Block(page.value, 0));
    }
  }

  lemma UnheldLoose(a: PageAllocator)
    requires a.Valid()
    ensures forall s: set<nat> | (forall x <- s :: Loose(a.owner(x))) :: s <= a.managed - Covered(a.held)
  {
  }

  lemma CachesEmpty(a: PageAllocator)
    requires a.Valid() && forall x: nat :: !Loose(a.owner(x))
    ensures forall c | 0 <= c < |a.pageset| :: a.pageset[c].lists == []
  {
    hide PageAllocator.Held;
    forall c | 0 <= c < |a.pageset| ensures a.pageset[c].lists == [] {
      var l := a.pageset[c].lists;
      if l != [] {
        assert l[0] in l;
        CacheIs(a, c);
        assert false;
      }
    }
  }

  /** When all pages are in use and CPU 1 gives one back, it is overlooked by CPU 0. */
  method GiveBack(a: PageAllocator, x: nat)
    requires a.Valid() && |a.pageset| == 3 && a.pageset[1].high >= 6 && Block(x, 0) in a.held
    requires forall y: nat :: !Loose(a.owner(y))
    modifies a`pageset, a`owner, a`held, a.z`buddyOrder, a.z.freeArea
    ensures a.Valid() && Overlooked(a, 0, x) && a.owner(x) == InPcp(1)
  {
    hide PageAllocator.Held;
    hide Pages;
    CachesEmpty(a);
    ghost var owner := a.owner;
    SinglePage(Block(x, 0));
    a.FreePages(1, x, 0, {});
    assert a.pageset[1].lists == [x];
    CacheIs(a, 1);
    CacheIs(a, 0);
  }

  /**
   A whole run from boot to such a state, for every zone of 8192 pages or more and three CPUs: the pages of the zone are
   freed, CPU 0 takes all of them and CPU 1 gives one back.  CPU 0 does not find it.
   */
  method RunThatMisses(maxOrder: nat, valid: set<nat>, zone: set<nat>, zoneId: nat -> nat, id: nat,
                       foreign: map<nat, nat>, start: nat, end: nat)
    returns (a: PageAllocator, x: nat, page: Option<nat>, ghost before: Ledger)
    requires maxOrder >= 1 && ZonesOk(valid, zone, zoneId, id) && foreign.Keys !! zone
    requires 0 < start && end - start >= 8192 && zone == Interval(start, end - start)
    ensures fresh(a) && a.Valid() && start <= x < end && before(x) == InPcp(1) && page.None?
  {
    hide PageAllocator.Held;
    a := new PageAllocator(maxOrder, valid, zone, zoneId, id, foreign, 3, end - start);
    ghost var tiles := a.FreePagesMemory(0, start, end);
    FirstIsNear(a, start, end);
    var first := AllocPages(a, 0, 0, {});
    x := first.value;
    TakeAll(a, 0);
    GiveBack(a, x);
    InRange(a, x, start, end);
    before := a.owner;
    page := SearchMayMiss(a, 0, x);
  }

  lemma FirstIsNear(a: PageAllocator, start: nat, end: nat)
    requires a.Valid() && start < end && a.z.zone == Interval(start, end - start)
    requires forall x <- Interval(start, end - start) :: Local(a.owner(x), 0)
    ensures HasNear(a.owner, a.z.zone, a.z.MaxOrder(), 0, 0)
  {
    assert start in a.z.zone;
    a.ManagedPage(start);
    OnePage(start, a.z.zone, a.z.MaxOrder());
  }

  lemma InRange(a: PageAllocator, x: nat, start: nat, end: nat)
    requires a.Valid() && start <= end && a.z.zone == Interval(start, end - start) && a.owner(x) != Unmanaged
    ensures start <= x < end
  {
    a.ManagedPage(x);
  }

  // ---------------------------------------------------------------------------
  // Allocating and freeing again

  /** The first page of a cache that is not full, taken off and put back. */
  lemma BackInFront(pageset0: seq<PerCpuPages>, pageset1: seq<PerCpuPages>, pageset2: seq<PerCpuPages>,
                    cpu: nat, page: nat)
    requires TakenOff(pageset0, pageset1, cpu, 1) && Pushed(pageset1, pageset2, cpu, page)
    requires page == pageset0[cpu].lists[0] && PcpOk(pageset0[cpu]) && CachesBounded(pageset0)
    ensures pageset2 == pageset0
  {
    var l := pageset0[cpu].lists;
    assert [page] + l[1..] == l && l[..|l|] == l;
  }

  /** The first page of a CPU's cache is within its reach. */
  lemma CachedIsNear(a: PageAllocator, cpu: nat)
    requires a.Valid() && cpu < |a.pageset| && a.pageset[cpu].lists != []
    ensures HasNear(a.owner, a.z.zone, a.z.MaxOrder(), cpu, 0)
  {
    var x := a.pageset[cpu].lists[0];
    CacheIs(a, cpu);
    a.ManagedPage(x);
    OnePage(x, a.z.zone, a.z.MaxOrder());
  }

  lemma ZoneWellFormed(a: PageAllocator)
    requires a.Valid()
    ensures WellFormed(a.z.Blocks(), a.z.zone, a.z.MaxOrder()) && a.z.Free() == Covered(a.z.Blocks())
  {
  }

  lemma Restored(a: PageAllocator, owner: Ledger, free: set<nat>, blocks: set<Block>, inUse: set<nat>,
                 managed: set<nat>, cpu: nat)
    requires a.Valid() && cpu < |a.pageset| && Agrees(owner, a.pageset, free, inUse, managed)
    requires WellFormed(blocks, a.z.zone, a.z.MaxOrder()) && free == Covered(blocks)
    requires forall x: nat :: a.owner(x) == owner(x) || (Local(owner(x), cpu) && Local(a.owner(x), cpu))
    ensures (forall x: nat :: a.owner(x) == owner(x)) && a.z.Blocks() == blocks
  {
    hide HeldOk;
    forall x: nat ensures a.owner(x) == owner(x) && (x in a.z.Free() <==> x in free) {
      assert x in a.pageset[cpu].lists <==> a.owner(x) == InPcp(cpu);
      assert x in a.pageset[cpu].lists <==> owner(x) == InPcp(cpu);
    }
    assert a.z.Free() == free;
    Canonical(a.z.Blocks(), blocks, a.z.zone, a.z.MaxOrder());
  }

  /**
   A block that is allocated and freed again, with pages that pass the state checks, leaves every page in use that was,
   and no others.  If there was one within reach, and for a single page one in the cache, everything is as it was: the
   free blocks, the caches and the owner of every page.
   */
  method AllocThenFree(a: PageAllocator, cpu: nat, order: nat) returns (page: Option<nat>)
    requires a.Valid() && cpu < |a.pageset|
    modifies a`pageset, a`owner, a`held, a.z`buddyOrder, a.z.freeArea
    ensures a.Valid() && a.held == old(a.held)
    ensures forall x: nat :: Shifted(old(a.owner)(x), a.owner(x), false)
    ensures (if order == 0 then old(a.pageset[cpu].lists != [])
             else HasNear(old(a.owner), a.z.zone, a.z.MaxOrder(), cpu, order)) ==>
              && page.Some? && a.pageset == old(a.pageset) && a.z.Blocks() == old(a.z.Blocks())
              && forall x: nat :: a.owner(x) == old(a.owner)(x)
  {
    hide PageAllocator.Held;
    hide Pages;
    hide Fits;
    hide HasNear;
    hide HasSpare;
    hide Train;
    hide Spoiled;
    hide WellFormed;
    hide Covered;
    hide BlocksOf;
    NothingSpoiled(order);
    ZoneWellFormed(a);
    AgreesNow(a);
    a.PcpFacts(cpu);
    if a.pageset[cpu].lists != [] { CachedIsNear(a, cpu); }
    ghost var pageset0 := a.pageset;
    page := AllocPages(a, cpu, order, {});
    if page.Some? {
      ghost var pageset1, owner1 := a.pageset, a.owner;
      a.FreePages(cpu, page.value, order, {});
      if order == 0 && pageset0[cpu].lists != [] { BackInFront(pageset0, pageset1, a.pageset, cpu, page.value); }
    }
    if a.pageset == pageset0 && HasNear(old(a.owner), a.z.zone, a.z.MaxOrder(), cpu, order) {
      Restored(a, old(a.owner), old(a.z.Free()), old(a.z.Blocks()), old(Covered(a.held)), old(a.managed), cpu);
    }
  }
}
