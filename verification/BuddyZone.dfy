/**
 The zoned buddy allocator of kernel/mm/page_alloc.c: splitting on allocation, coalescing on
 free.  Free lists are lists of page frame numbers; the struct page fields PageBuddy and
 page_private are one map, which holds a pfn exactly when PageBuddy is set on it.
 */
module BuddyZone {
  import opened Dyadic
  import opened FreeBlocks
  import opened Lists
  import opened Options

  /** struct free_area */
  datatype FreeArea = FreeArea(freeList: seq<nat>, nrFree: nat)

  // ---------------------------------------------------------------------------
  // Free lists as values

  ghost predicate Listed(areas: seq<FreeArea>, b: Block) {
    b.order < |areas| && b.pfn in areas[b.order].freeList
  }

  ghost function BlocksOf(areas: seq<FreeArea>): set<Block> {
    set o, p | 0 <= o < |areas| && p in areas[o].freeList :: Block(p, o)
  }

  ghost predicate AreaOk(a: FreeArea) { a.nrFree == |a.freeList| && NoDup(a.freeList) }

  ghost predicate AreasOk(areas: seq<FreeArea>) { forall o | 0 <= o < |areas| :: AreaOk(areas[o]) }

  /** Within the zone, PageBuddy and page_private say exactly which list a page heads. */
  ghost predicate FlagsOk(areas: seq<FreeArea>, buddyOrder: map<nat, nat>, zone: set<nat>) {
    && (forall p, o | p in zone && 0 <= o < |areas| ::
          p in areas[o].freeList <==> p in buddyOrder && buddyOrder[p] == o)
    && (forall p | p in zone && p in buddyOrder :: buddyOrder[p] < |areas|)
  }

  /** A valid page belongs to this zone exactly if its page_zone_id says so. */
  ghost predicate ZonesOk(valid: set<nat>, zone: set<nat>, zoneId: nat -> nat, id: nat) {
    forall p: nat :: p in zone <==> p in valid && zoneId(p) == id
  }

  /** The flags of the pages of other zones are as before. */
  ghost predicate ForeignKept(m: map<nat, nat>, m': map<nat, nat>, zone: set<nat>) {
    forall p: nat | p !in zone :: (p in m' <==> p in m) && (p in m ==> m'[p] == m[p])
  }

  lemma KeptAgain(m: map<nat, nat>, m': map<nat, nat>, m'': map<nat, nat>, zone: set<nat>)
    requires ForeignKept(m, m', zone) && ForeignKept(m', m'', zone)
    ensures ForeignKept(m, m'', zone)
  {
  }

  /** Whether a page heads a free block of an order whose list is as before, or of another zone, is as before too. */
  lemma SameBuddy(areas: seq<FreeArea>, m: map<nat, nat>, areas': seq<FreeArea>, m': map<nat, nat>, zone: set<nat>, p: nat, o: nat)
    requires FlagsOk(areas, m, zone) && FlagsOk(areas', m', zone) && ForeignKept(m, m', zone)
    requires o < |areas| == |areas'| && areas[o] == areas'[o]
    ensures (p in m && m[p] == o) <==> (p in m' && m'[p] == o)
  {
  }

  lemma ListedIsMember(areas: seq<FreeArea>, b: Block)
    ensures b in BlocksOf(areas) <==> Listed(areas, b)
  {
  }

  function Unlinked(a: FreeArea, p: nat): FreeArea
    requires a.nrFree > 0
  {
    FreeArea(Del(a.freeList, p), a.nrFree - 1)
  }

  /** list_del, nr_free-- and rmv_page_order together take one block out. */
  lemma UnlinkBlock(areas: seq<FreeArea>, buddyOrder: map<nat, nat>, zone: set<nat>, b: Block)
    requires AreasOk(areas) && FlagsOk(areas, buddyOrder, zone) && Listed(areas, b) && b.pfn in zone
    ensures areas[b.order].nrFree > 0
    ensures var areas' := areas[b.order := Unlinked(areas[b.order], b.pfn)];
            && AreasOk(areas')
            && FlagsOk(areas', buddyOrder - {b.pfn}, zone)
            && BlocksOf(areas') == BlocksOf(areas) - {b}
  {
    var a := areas[b.order];
    assert AreaOk(a);
    DelFacts(a.freeList, b.pfn);
    var areas' := areas[b.order := Unlinked(a, b.pfn)];
    forall c: Block ensures c in BlocksOf(areas') <==> c in BlocksOf(areas) && c != b {
      ListedIsMember(areas, c);
      ListedIsMember(areas', c);
    }
  }

  /** A list insertion at either end, nr_free++ and set_page_order together add one block. */
  lemma LinkBlock(areas: seq<FreeArea>, buddyOrder: map<nat, nat>, zone: set<nat>, b: Block, a: FreeArea)
    requires AreasOk(areas) && FlagsOk(areas, buddyOrder, zone)
    requires b.order < |areas| && b.pfn in zone && b.pfn !in buddyOrder
    requires a.nrFree == areas[b.order].nrFree + 1
    requires a.freeList == [b.pfn] + areas[b.order].freeList || a.freeList == areas[b.order].freeList + [b.pfn]
    ensures var areas' := areas[b.order := a];
            && AreasOk(areas')
            && FlagsOk(areas', buddyOrder[b.pfn := b.order], zone)
            && BlocksOf(areas') == BlocksOf(areas) + {b}
  {
    assert AreaOk(areas[b.order]);
    var areas' := areas[b.order := a];
    assert b.pfn !in areas[b.order].freeList;
    forall c: Block ensures c in BlocksOf(areas') <==> c in BlocksOf(areas) || c == b {
      ListedIsMember(areas, c);
      ListedIsMember(areas', c);
    }
  }

  lemma HalfPow2(n: nat)
    requires n > 0
    ensures Pow2(n) / 2 == Pow2(n - 1)
  {
  }

  lemma FitsOrder(b: Block, zone: set<nat>, maxOrder: nat)
    requires Fits(b, zone, maxOrder)
    ensures b.order < maxOrder
  {
  }

  /** The halves of a block that fits in the zone fit too. */
  lemma SplitFits(b: Block, zone: set<nat>, maxOrder: nat)
    requires Fits(b, zone, maxOrder) && b.order > 0
    ensures var lo, hi := Block(b.pfn, b.order - 1), Block(b.pfn + Pow2(b.order - 1), b.order - 1);
            && Fits(lo, zone, maxOrder) && Fits(hi, zone, maxOrder) && lo == Buddy(hi)
            && Pages(lo) !! Pages(hi) && Pages(b) == Pages(lo) + Pages(hi)
  {
    HalvesOf(b);
  }

  class Zone {
    const valid: set<nat>               // pfn_valid, whatever zone the page is in
    const zoneId: nat -> nat            // page_zone_id of every page
    const id: nat                       // and the one of this zone
    const zone: set<nat>                // the pages of this zone
    const freeArea: array<FreeArea>     // MAX_ORDER entries, one per order
    var buddyOrder: map<nat, nat>       // PageBuddy and page_private of every page

    function MaxOrder(): nat { freeArea.Length }

    ghost predicate ListsValid()
      reads this, freeArea
    {
      && freeArea.Length >= 1 && ZonesOk(valid, zone, zoneId, id)
      && AreasOk(freeArea[..])
      && FlagsOk(freeArea[..], buddyOrder, zone)
      && WellFormed(Blocks(), zone, MaxOrder())
    }

    /** The free blocks. */
    ghost function Blocks(): set<Block>
      reads freeArea
    {
      BlocksOf(freeArea[..])
    }

    /** The free pages. */
    ghost function Free(): set<nat>
      reads freeArea
    {
      Covered(Blocks())
    }

    /** page_is_buddy */
    predicate PageIsBuddy(page: nat, buddy: nat, order: nat)
      reads this
    {
      buddy in buddyOrder && buddyOrder[buddy] == order && zoneId(page) == zoneId(buddy)
    }

    /** For a page of this zone. */
    lemma PageIsBuddyIffFree(page: nat, buddy: nat, order: nat)
      requires ListsValid() && order < MaxOrder() && page in zone && buddy in valid
      ensures PageIsBuddy(page, buddy, order) <==> Block(buddy, order) in Blocks()
    {
      ListedIsMember(freeArea[..], Block(buddy, order));
      if Block(buddy, order) in Blocks() {
        assert Fits(Block(buddy, order), zone, MaxOrder());
        FirstPage(Block(buddy, order));
      }
    }

    lemma FreshPage(b: Block)
      requires ListsValid() && Fits(b, zone, MaxOrder()) && Pages(b) !! Free()
      ensures b.pfn in zone && b.pfn !in buddyOrder
    {
      FirstPage(b);
      if b.pfn in buddyOrder {
        var c := Block(b.pfn, buddyOrder[b.pfn]);
        ListedIsMember(freeArea[..], c);
        FirstPage(c);
        assert false;
      }
    }

    /** The zone with empty free lists. */
    constructor (maxOrder: nat, valid: set<nat>, zone: set<nat>, zoneId: nat -> nat, id: nat, foreign: map<nat, nat>)
      requires maxOrder >= 1 && ZonesOk(valid, zone, zoneId, id) && foreign.Keys !! zone
      ensures ListsValid() && fresh(freeArea)
      ensures freeArea.Length == maxOrder && this.valid == valid && this.zone == zone
      ensures Free() == {}
    {
      this.valid, this.zone, this.zoneId, this.id, this.buddyOrder := valid, zone, zoneId, id, foreign;
      this.freeArea := new FreeArea[maxOrder](_ => FreeArea([], 0));
      new;
      assert Blocks() == {};
    }

    /** list_del, nr_free-- and rmv_page_order of one free block. */
    method TakeOff(b: Block)
      requires ListsValid() && b in Blocks()
      modifies freeArea, this`buddyOrder
      ensures ListsValid()
      ensures Blocks() == old(Blocks()) - {b}
      ensures Free() == old(Free()) - Pages(b)
      ensures forall o | 0 <= o < MaxOrder() && o != b.order :: freeArea[o] == old(freeArea[o])
      ensures ForeignKept(old(buddyOrder), buddyOrder, zone)
    {
      ListedIsMember(freeArea[..], b);
      assert Fits(b, zone, MaxOrder());
      FirstPage(b);
      UnlinkBlock(freeArea[..], buddyOrder, zone, b);
      RemoveBlock(Blocks(), b, zone, MaxOrder());
      ghost var areas := freeArea[..];
      freeArea[b.order] := Unlinked(freeArea[b.order], b.pfn);
      buddyOrder := buddyOrder - {b.pfn};
      assert freeArea[..] == areas[b.order := Unlinked(areas[b.order], b.pfn)];
    }

    /** set_page_order, list_add or list_add_tail, and nr_free++ of one block. */
    method PutOn(b: Block, tail: bool)
      requires ListsValid() && Fits(b, zone, MaxOrder()) && Pages(b) !! Free()
      requires b.order + 1 < MaxOrder() ==> Buddy(b) !in Blocks()
      modifies freeArea, this`buddyOrder
      ensures ListsValid()
      ensures Blocks() == old(Blocks()) + {b}
      ensures Free() == old(Free()) + Pages(b)
      ensures forall o | 0 <= o < MaxOrder() && o != b.order :: freeArea[o] == old(freeArea[o])
      ensures freeArea[b.order].freeList ==
              if tail then old(freeArea[b.order].freeList) + [b.pfn] else [b.pfn] + old(freeArea[b.order].freeList)
    {
      FreshPage(b);
      var a := freeArea[b.order];
      var a' := FreeArea(if tail then a.freeList + [b.pfn] else [b.pfn] + a.freeList, a.nrFree + 1);
      LinkBlock(freeArea[..], buddyOrder, zone, b, a');
      AddBlock(Blocks(), b, zone, MaxOrder());
      ghost var areas := freeArea[..];
      freeArea[b.order] := a';
      buddyOrder := buddyOrder[b.pfn := b.order];
      assert freeArea[..] == areas[b.order := a'];
    }

    /** One turn of the merge loop: take the free buddy off its list and return the combined block's pfn. */
    method MergeWithBuddy(pfn: nat, order: nat) returns (combined: nat)
      requires ListsValid() && order + 1 < MaxOrder() && Fits(Block(pfn, order), zone, MaxOrder())
      requires Pages(Block(pfn, order)) !! Free()
      requires FindBuddyPfn(pfn, order) in valid && PageIsBuddy(pfn, FindBuddyPfn(pfn, order), order)
      modifies freeArea, this`buddyOrder
      ensures ListsValid() && Fits(Block(combined, order + 1), zone, MaxOrder())
      ensures Pages(Block(combined, order + 1)) !! Free()
      ensures Pages(Block(pfn, order)) <= Pages(Block(combined, order + 1))
      ensures Free() + Pages(Block(combined, order + 1)) == old(Free()) + Pages(Block(pfn, order))
      ensures forall o | order < o < MaxOrder() :: freeArea[o] == old(freeArea[o])
      ensures ForeignKept(old(buddyOrder), buddyOrder, zone)
    {
      hide ForeignKept;
      var buddyPfn := FindBuddyPfn(pfn, order);
      FirstPage(Block(pfn, order));
      PageIsBuddyIffFree(pfn, buddyPfn, order);
      MergeBlocks(Blocks(), Block(pfn, order), zone, MaxOrder());
      MergeAddress(Block(pfn, order));
      ParentSplits(Block(pfn, order));
      TakeOff(Block(buddyPfn, order));
      combined := BitAnd(buddyPfn, pfn);
    }

    /** The buddy of the block that a freed block would merge into is itself free, in the zone of that block. */
    predicate MergesSoon(b: Block)
      reads this
    {
      var buddy := FindBuddyPfn(b.pfn, b.order);
      var combined := BitAnd(buddy, b.pfn);
      var higher := FindBuddyPfn(combined, b.order + 1);
      b.order + 2 < MaxOrder() && buddy in valid && higher in valid && PageIsBuddy(combined, higher, b.order + 1)
    }

    /** For a block whose parent begins in this zone: the parent's buddy is a free block. */
    lemma MergesSoonIs(b: Block)
      requires ListsValid() && Fits(b, zone, MaxOrder()) && Parent(b).pfn in zone
      ensures MergesSoon(b) <==> b.order + 2 < MaxOrder() && Buddy(b).pfn in valid && Buddy(Parent(b)) in Blocks()
    {
      MergeAddress(b);
      var higher := Buddy(Parent(b));
      if b.order + 2 < MaxOrder() && higher.pfn in valid { PageIsBuddyIffFree(Parent(b).pfn, higher.pfn, b.order + 1); }
      if higher in Blocks() {
        assert Fits(higher, zone, MaxOrder());
        FirstPage(higher);
      }
    }

    /** Where merging stops, below the largest order, the buddy is not on its list. */
    lemma NoFreeBuddy(b: Block)
      requires ListsValid() && Fits(b, zone, MaxOrder())
      requires b.order + 1 < MaxOrder() ==>
                 var buddy := FindBuddyPfn(b.pfn, b.order); buddy !in valid || !PageIsBuddy(b.pfn, buddy, b.order)
      ensures b.order + 1 < MaxOrder() ==> Buddy(b) !in Blocks()
    {
      if b.order + 1 < MaxOrder() {
        var buddy := FindBuddyPfn(b.pfn, b.order);
        FirstPage(b);
        if buddy in valid {
          PageIsBuddyIffFree(b.pfn, buddy, b.order);
        } else if Buddy(b) in Blocks() {
          assert Fits(Buddy(b), zone, MaxOrder());
          FirstPage(Buddy(b));
        }
      }
    }

    /**
     __free_one_page: merge with free buddies upwards, then put the result on its list.  By
     FreeBlocks.Canonical the new set of free blocks is thereby fully determined.
     */
    method FreeOnePage(pfn0: nat, order0: nat) returns (ghost merged: Block)
      requires ListsValid() && Fits(Block(pfn0, order0), zone, MaxOrder())
      requires Pages(Block(pfn0, order0)) !! Free()
      modifies freeArea, this`buddyOrder
      ensures ListsValid()
      ensures Free() == old(Free()) + Pages(Block(pfn0, order0))
      ensures merged in Blocks() && Pages(Block(pfn0, order0)) <= Pages(merged)
      ensures forall o | merged.order < o < MaxOrder() :: freeArea[o] == old(freeArea[o])
      ensures freeArea[merged.order].freeList ==
              if old(MergesSoon(merged)) then old(freeArea[merged.order].freeList) + [merged.pfn]
              else [merged.pfn] + old(freeArea[merged.order].freeList)
    {
      hide AreasOk;
      hide FlagsOk;
      hide WellFormed;
      hide Covered;
      hide BlocksOf;
      hide Pages;
      hide Fits;
      hide ZonesOk;
      ghost var areas0, flags0 := freeArea[..], buddyOrder;
      var pfn, order, buddyPfn := pfn0, order0, 0;
      FitsOrder(Block(pfn0, order0), zone, MaxOrder());
      while order + 1 < MaxOrder()
        invariant order0 <= order < MaxOrder()
        invariant ListsValid() && Fits(Block(pfn, order), zone, MaxOrder())
        invariant Pages(Block(pfn, order)) !! Free()
        invariant Free() + Pages(Block(pfn, order)) == old(Free()) + Pages(Block(pfn0, order0))
        invariant Pages(Block(pfn0, order0)) <= Pages(Block(pfn, order))
        invariant forall o | order <= o < MaxOrder() :: freeArea[o] == old(freeArea[o])
        invariant ForeignKept(old(buddyOrder), buddyOrder, zone)
      {
        buddyPfn := FindBuddyPfn(pfn, order);
        if buddyPfn !in valid {
          break;
        }
        if !PageIsBuddy(pfn, buddyPfn, order) {
          break;
        }
        ghost var flags := buddyOrder;
        pfn := MergeWithBuddy(pfn, order);
        KeptAgain(old(buddyOrder), flags, buddyOrder, zone);
        order := order + 1;
      }
      merged := Block(pfn, order);
      NoFreeBuddy(merged);
      var tail := false;
      if order + 2 < MaxOrder() && buddyPfn in valid {
        var combined := BitAnd(buddyPfn, pfn);
        var higherBuddy := FindBuddyPfn(combined, order + 1);
        SameBuddy(areas0, flags0, freeArea[..], buddyOrder, zone, higherBuddy, order + 1);
        tail := higherBuddy in valid && PageIsBuddy(combined, higherBuddy, order + 1);
      }
      PutOn(Block(pfn, order), tail);
    }

    /** One turn of expand: the upper half of a block goes to the front of its list. */
    method PutUpperHalf(pfn: nat, high: nat, size: nat)
      requires ListsValid() && Fits(Block(pfn, high + 1), zone, MaxOrder()) && size == Pow2(high)
      requires Pages(Block(pfn, high + 1)) !! Free()
      modifies freeArea, this`buddyOrder
      ensures ListsValid() && Fits(Block(pfn, high), zone, MaxOrder())
      ensures Pages(Block(pfn, high)) <= Pages(Block(pfn, high + 1)) && Pages(Block(pfn, high)) !! Free()
      ensures Free() + Pages(Block(pfn, high)) == old(Free()) + Pages(Block(pfn, high + 1))
      ensures forall o | 0 <= o < MaxOrder() && o != high :: freeArea[o] == old(freeArea[o])
      ensures freeArea[high].freeList == [pfn + size] + old(freeArea[high].freeList)
    {
      SplitFits(Block(pfn, high + 1), zone, MaxOrder());
      FirstPage(Block(pfn, high));
      PutOn(Block(pfn + size, high), false);
    }

    /** expand: give back the upper halves of a block of order `high` down to order `low`. */
    method Expand(pfn: nat, low: nat, high0: nat)
      requires ListsValid() && low <= high0 && Fits(Block(pfn, high0), zone, MaxOrder())
      requires Pages(Block(pfn, high0)) !! Free()
      modifies freeArea, this`buddyOrder
      ensures ListsValid()
      ensures Fits(Block(pfn, low), zone, MaxOrder())
      ensures Pages(Block(pfn, low)) <= Pages(Block(pfn, high0)) && Pages(Block(pfn, low)) !! Free()
      ensures Free() + Pages(Block(pfn, low)) == old(Free()) + Pages(Block(pfn, high0))
      ensures forall o | 0 <= o < MaxOrder() && !(low <= o < high0) :: freeArea[o] == old(freeArea[o])
      ensures forall o | low <= o < high0 :: freeArea[o].freeList == [pfn + Pow2(o)] + old(freeArea[o].freeList)
    {
      hide AreasOk;
      hide FlagsOk;
      hide WellFormed;
      hide Covered;
      hide BlocksOf;
      hide Pages;
      hide Fits;
      hide Pow2;
      FitsOrder(Block(pfn, high0), zone, MaxOrder());
      var high, size := high0, Pow2(high0);
      while high > low
        invariant low <= high <= high0 && size == Pow2(high)
        invariant ListsValid() && Fits(Block(pfn, high), zone, MaxOrder())
        invariant Pages(Block(pfn, high)) !! Free()
        invariant Pages(Block(pfn, high)) <= Pages(Block(pfn, high0))
        invariant Free() + Pages(Block(pfn, high)) == old(Free()) + Pages(Block(pfn, high0))
        invariant forall o | 0 <= o < MaxOrder() && !(high <= o < high0) :: freeArea[o] == old(freeArea[o])
        invariant forall o | high <= o < high0 :: freeArea[o].freeList == [pfn + Pow2(o)] + old(freeArea[o].freeList)
      {
        HalfPow2(high);
        high, size := high - 1, size / 2;
        PutUpperHalf(pfn, high, size);
      }
    }

    /**
     __rmqueue_smallest: take the first block of the smallest sufficient order and split it.
     Fails exactly when no free block is large enough, and then changes nothing.
     */
    method RmqueueSmallest(order: nat) returns (page: Option<nat>)
      requires ListsValid()
      modifies freeArea, this`buddyOrder
      ensures ListsValid()
      ensures page.None? <==> forall b | b in old(Blocks()) :: b.order < order
      ensures page.None? ==> Blocks() == old(Blocks())
      ensures page.Some? ==>
                var b := Block(page.value, order);
                && Fits(b, zone, MaxOrder()) && Pages(b) <= old(Free())
                && Free() == old(Free()) - Pages(b)
                && exists k :: TakenFrom(old(freeArea[..]), order, page.value, k)
    {
      var current := order;
      while current < MaxOrder()
        invariant current >= order
        invariant freeArea[..] == old(freeArea[..]) && ListsValid()
        invariant forall o | order <= o < current && o < MaxOrder() :: freeArea[..][o].freeList == []
      {
        var list := freeArea[current].freeList;
        if list != [] {
          var b := Block(list[0], current);
          ListedIsMember(freeArea[..], b);
          assert Fits(b, zone, MaxOrder());
          assert Pages(b) <= Free();
          assert TakenFrom(old(freeArea[..]), order, list[0], current);
          TakeOff(b);
          Expand(list[0], order, current);
          return Some(list[0]);
        }
        current := current + 1;
      }
      forall b | b in Blocks() ensures b.order < order {
        ListedIsMember(freeArea[..], b);
      }
      return None;
    }

    /** Allocating a block and freeing it again restores exactly the same free blocks. */
    method AllocThenFree(order: nat) returns (page: Option<nat>)
      requires ListsValid()
      modifies freeArea, this`buddyOrder
      ensures ListsValid() && Blocks() == old(Blocks())
      ensures page.Some? <==> exists b :: b in Blocks() && b.order >= order
    {
      page := RmqueueSmallest(order);
      if page.Some? {
        ghost var merged := FreeOnePage(page.value, order);
        Canonical(Blocks(), old(Blocks()), zone, MaxOrder());
      }
    }

    /** nr_zone_free_pages: the counters add up to the number of free pages. */
    method NrZoneFreePages() returns (n: nat)
      requires ListsValid()
      ensures n == |Free()|
    {
      n := 0;
      var order := 0;
      while order < MaxOrder()
        invariant 0 <= order <= MaxOrder()
        invariant n == CountUpTo(freeArea[..], order)
      {
        TimesIsProduct(freeArea[order].nrFree, Pow2(order));
        n := n + freeArea[order].nrFree * Pow2(order);
        order := order + 1;
      }
      CountIsCovered(freeArea[..], zone, MaxOrder());
    }
  }

  /** pfn heads the first block of order k, and no order from `order` below k has a free block. */
  ghost predicate TakenFrom(areas: seq<FreeArea>, order: nat, pfn: nat, k: nat) {
    && order <= k < |areas|
    && areas[k].freeList != [] && areas[k].freeList[0] == pfn
    && forall o | order <= o < k :: areas[o].freeList == []
  }

  // ---------------------------------------------------------------------------
  // Counting

  ghost function CountUpTo(areas: seq<FreeArea>, n: nat): nat
    requires n <= |areas|
  {
    if n == 0 then 0 else CountUpTo(areas, n - 1) + Times(areas[n - 1].nrFree, Pow2(n - 1))
  }

  ghost function OfOrderBelow(bs: set<Block>, n: nat): set<Block> { set b | b in bs && b.order < n }

  ghost function Heads(list: seq<nat>, o: nat): set<Block> { set p | p in list :: Block(p, o) }

  ghost function Times(n: nat, p: nat): nat { if n == 0 then 0 else Times(n - 1, p) + p }

  lemma {:induction false} TimesIsProduct(n: nat, p: nat)
    ensures Times(n, p) == n * p
  {
    if n > 0 {
      TimesIsProduct(n - 1, p);
    }
  }

  lemma {:induction false} HeadsCard(list: seq<nat>, o: nat)
    requires NoDup(list)
    ensures |Heads(list, o)| == |list|
  {
    if list == [] {
      assert Heads(list, o) == {};
    } else {
      assert list == [list[0]] + list[1..];
      HeadsCard(list[1..], o);
      assert Heads(list, o) == Heads(list[1..], o) + {Block(list[0], o)};
    }
  }

  /** Separated blocks of one order cover as many pages as they have in all. */
  lemma {:induction false} UniformCount(bs: set<Block>, o: nat)
    requires Separate(bs) && forall b <- bs :: b.order == o
    ensures |Covered(bs)| == Times(|bs|, Pow2(o))
    decreases |bs|
  {
    if bs == {} {
      assert Covered(bs) == {};
    } else {
      var b :| b in bs;
      var rest := bs - {b};
      UniformCount(rest, o);
      SeparateSplit(bs, b);
      PagesCount(b);
      hide Pages;
      hide Covered;
      assert |bs| == |rest| + 1;
    }
  }

  lemma SeparateSplit(bs: set<Block>, b: Block)
    requires Separate(bs) && b in bs
    ensures Covered(bs) == Covered(bs - {b}) + Pages(b)
    ensures Covered(bs - {b}) !! Pages(b)
  {
    forall x | x in Covered(bs - {b}) ensures x !in Pages(b) {
      var c := CoverOf(bs - {b}, x);
    }
  }

  /** Disjoint parts of a separated set cover disjoint pages. */
  lemma DisjointCover(bs: set<Block>, low: set<Block>, top: set<Block>)
    requires Separate(bs) && low <= bs && top <= bs && low !! top
    ensures Covered(low) !! Covered(top) && Covered(low + top) == Covered(low) + Covered(top)
  {
    forall x | x in Covered(low) && x in Covered(top) ensures false {
      var b := CoverOf(low, x);
      var c := CoverOf(top, x);
      Overlap(bs, b, c, x);
    }
  }

  /** The blocks of order below n + 1 are those below n and those on list n. */
  lemma OrderSplit(areas: seq<FreeArea>, n: nat)
    requires n < |areas|
    ensures var bs := BlocksOf(areas);
            var low, top := OfOrderBelow(bs, n), Heads(areas[n].freeList, n);
            && low <= bs && top <= bs && low !! top && OfOrderBelow(bs, n + 1) == low + top
  {
    forall b ensures b in OfOrderBelow(BlocksOf(areas), n + 1) <==>
                     b in OfOrderBelow(BlocksOf(areas), n) || b in Heads(areas[n].freeList, n) {
      ListedIsMember(areas, b);
    }
  }

  lemma CoverStep(areas: seq<FreeArea>, n: nat)
    requires n < |areas| && AreaOk(areas[n]) && Separate(BlocksOf(areas))
    ensures |Covered(OfOrderBelow(BlocksOf(areas), n + 1))| ==
            |Covered(OfOrderBelow(BlocksOf(areas), n))| + Times(areas[n].nrFree, Pow2(n))
  {
    var list := areas[n].freeList;
    assert NoDup(list) && areas[n].nrFree == |list|;
    HeadsCard(list, n);
    OrderSplit(areas, n);
    HeadsUniform(BlocksOf(areas), list, n);
    hide *;
    UniformCount(Heads(list, n), n);
    DisjointCover(BlocksOf(areas), OfOrderBelow(BlocksOf(areas), n), Heads(list, n));
  }

  lemma HeadsUniform(bs: set<Block>, list: seq<nat>, n: nat)
    requires Separate(bs) && Heads(list, n) <= bs
    ensures Separate(Heads(list, n)) && forall b <- Heads(list, n) :: b.order == n
  {
  }

  lemma {:induction false} CountUpToIsCovered(areas: seq<FreeArea>, n: nat)
    requires n <= |areas| && AreasOk(areas) && Separate(BlocksOf(areas))
    ensures CountUpTo(areas, n) == |Covered(OfOrderBelow(BlocksOf(areas), n))|
  {
    if n == 0 {
      assert Covered(OfOrderBelow(BlocksOf(areas), 0)) == {};
    } else {
      CountUpToIsCovered(areas, n - 1);
      CoverStep(areas, n - 1);
    }
  }

  lemma CountIsCovered(areas: seq<FreeArea>, zone: set<nat>, maxOrder: nat)
    requires |areas| == maxOrder && AreasOk(areas) && WellFormed(BlocksOf(areas), zone, maxOrder)
    ensures CountUpTo(areas, maxOrder) == |Covered(BlocksOf(areas))|
  {
    CountUpToIsCovered(areas, maxOrder);
    assert OfOrderBelow(BlocksOf(areas), maxOrder) == BlocksOf(areas);
  }
}
