/**
 Sets of free buddy blocks, as values.  The main result is that a coalesced set is a
 canonical form: the pages it covers determine the blocks.
 */
module FreeBlocks {
  import opened Dyadic

  /** The pages covered by a set of blocks. */
  ghost function Covered(bs: set<Block>): set<nat> { set b, x | b in bs && x in Pages(b) :: x }

  ghost predicate Fits(b: Block, zone: set<nat>, maxOrder: nat) {
    b.order < maxOrder && Aligned(b.pfn, b.order) && Pages(b) <= zone
  }

  ghost predicate Placed(bs: set<Block>, zone: set<nat>, maxOrder: nat) {
    forall b <- bs :: Fits(b, zone, maxOrder)
  }

  ghost predicate Separate(bs: set<Block>) {
    forall b, c | b in bs && c in bs && b != c :: Pages(b) !! Pages(c)
  }

  /** No two buddies below the top order are both free. */
  ghost predicate Coalesced(bs: set<Block>, maxOrder: nat) {
    forall b <- bs :: b.order + 1 < maxOrder ==> Buddy(b) !in bs
  }

  ghost predicate WellFormed(bs: set<Block>, zone: set<nat>, maxOrder: nat) {
    Placed(bs, zone, maxOrder) && Separate(bs) && Coalesced(bs, maxOrder)
  }

  lemma CoverOf(bs: set<Block>, x: nat) returns (b: Block)
    requires x in Covered(bs)
    ensures b in bs && x in Pages(b)
  {
    b :| b in bs && x in Pages(b);
  }

  lemma FirstPage(b: Block)
    ensures b.pfn in Pages(b)
  {
    assert Within(b, b.pfn);
  }

  /** Members of one separated set are equal as soon as they share a page. */
  lemma Overlap(bs: set<Block>, b: Block, c: Block, x: nat)
    requires Separate(bs) && b in bs && c in bs && x in Pages(b) && x in Pages(c)
    ensures b == c
  {
  }

  /** An aligned block whose pages are all free lies inside a single free block. */
  lemma {:induction false} CoveredByOne(bs: set<Block>, zone: set<nat>, maxOrder: nat, b: Block) returns (c: Block)
    requires WellFormed(bs, zone, maxOrder)
    requires Aligned(b.pfn, b.order) && b.order < maxOrder && Pages(b) <= Covered(bs)
    ensures c in bs && Pages(b) <= Pages(c)
    decreases b.order
  {
    FirstPage(b);
    if b.order == 0 {
      c := CoverOf(bs, b.pfn);
      Nested(b, c, b.pfn);
    } else {
      var lo, hi := Block(b.pfn, b.order - 1), Block(b.pfn + Pow2(b.order - 1), b.order - 1);
      HalvesOf(b);
      FirstPage(lo);
      FirstPage(hi);
      c := CoveredByOne(bs, zone, maxOrder, lo);
      var d := CoveredByOne(bs, zone, maxOrder, hi);
      if c.order >= b.order {
        Nested(b, c, b.pfn);
      } else if d.order >= b.order {
        Nested(b, d, hi.pfn);
        c := d;
      } else {
        // both halves are blocks themselves, which coalescing excludes
        SameSize(lo, c);
        SameSize(hi, d);
        assert false;
      }
    }
  }

  lemma SmallerInside(b: Block, c: Block)
    requires Pages(b) <= Pages(c)
    ensures b.order <= c.order
  {
    PagesCount(b);
    PagesCount(c);
    SubsetCount(Pages(b), Pages(c));
    if c.order < b.order {
      Pow2Monotone(c.order + 1, b.order);
    }
  }

  lemma SubsetCount<T>(a: set<T>, b: set<T>)
    requires a <= b
    ensures |a| <= |b|
  {
    assert b == a + (b - a);
  }

  lemma SameSize(b: Block, c: Block)
    requires Aligned(b.pfn, b.order) && Aligned(c.pfn, c.order)
    requires Pages(b) <= Pages(c) && c.order <= b.order
    ensures b == c
  {
    SmallerInside(b, c);
    FirstPage(b);
    SameOrderSame(b, c, b.pfn);
  }

  lemma Refines(bs: set<Block>, cs: set<Block>, zone: set<nat>, maxOrder: nat)
    requires WellFormed(bs, zone, maxOrder) && WellFormed(cs, zone, maxOrder)
    requires Covered(bs) == Covered(cs)
    ensures bs <= cs
  {
    forall b | b in bs ensures b in cs {
      assert Fits(b, zone, maxOrder);
      FirstPage(b);
      assert Pages(b) <= Covered(bs);
      var c := CoveredByOne(cs, zone, maxOrder, b);
      assert Fits(c, zone, maxOrder);
      assert Pages(c) <= Covered(cs);
      var d := CoveredByOne(bs, zone, maxOrder, c);
      Overlap(bs, b, d, b.pfn);
      SmallerInside(c, b);
      SameSize(b, c);
    }
  }

  /** Canonical form: the set of free pages alone determines the set of free blocks. */
  lemma Canonical(bs: set<Block>, cs: set<Block>, zone: set<nat>, maxOrder: nat)
    requires WellFormed(bs, zone, maxOrder) && WellFormed(cs, zone, maxOrder)
    requires Covered(bs) == Covered(cs)
    ensures bs == cs
  {
    Refines(bs, cs, zone, maxOrder);
    Refines(cs, bs, zone, maxOrder);
  }

  /** Adding a block whose pages and whose buddy are not free. */
  lemma AddBlock(bs: set<Block>, b: Block, zone: set<nat>, maxOrder: nat)
    requires WellFormed(bs, zone, maxOrder) && Fits(b, zone, maxOrder)
    requires Pages(b) !! Covered(bs)
    requires b.order + 1 < maxOrder ==> Buddy(b) !in bs
    ensures WellFormed(bs + {b}, zone, maxOrder)
    ensures Covered(bs + {b}) == Covered(bs) + Pages(b)
  {
    var cs := bs + {b};
    forall c | c in bs ensures Pages(c) !! Pages(b) {
      assert Pages(c) <= Covered(bs);
    }
    BuddyFacts(b);
    forall c | c in cs && c.order + 1 < maxOrder ensures Buddy(c) !in cs {
      assert Fits(c, zone, maxOrder);
      BuddyFacts(c);
    }
    assert forall x :: x in Covered(cs) <==> x in Covered(bs) || x in Pages(b);
  }

  lemma RemoveBlock(bs: set<Block>, b: Block, zone: set<nat>, maxOrder: nat)
    requires WellFormed(bs, zone, maxOrder) && b in bs
    ensures WellFormed(bs - {b}, zone, maxOrder)
    ensures Covered(bs - {b}) == Covered(bs) - Pages(b)
    ensures Pages(b) <= Covered(bs)
  {
    forall x | x in Covered(bs) && x !in Pages(b) ensures x in Covered(bs - {b}) {
      var c := CoverOf(bs, x);
    }
    forall x | x in Covered(bs - {b}) ensures x !in Pages(b) {
      var c := CoverOf(bs - {b}, x);
    }
  }

  /** A free block's buddy, when free at the same order, merges with it into the parent. */
  lemma MergeBlocks(bs: set<Block>, b: Block, zone: set<nat>, maxOrder: nat)
    requires WellFormed(bs, zone, maxOrder) && Fits(b, zone, maxOrder) && b.order + 1 < maxOrder
    requires Pages(b) !! Covered(bs) && Buddy(b) in bs
    ensures Fits(Parent(b), zone, maxOrder)
    ensures Pages(Parent(b)) !! Covered(bs - {Buddy(b)})
    ensures Covered(bs - {Buddy(b)}) + Pages(Parent(b)) == Covered(bs) + Pages(b)
    ensures WellFormed(bs - {Buddy(b)}, zone, maxOrder)
  {
    assert Fits(Buddy(b), zone, maxOrder);
    RemoveBlock(bs, Buddy(b), zone, maxOrder);
    ParentSplits(b);
    MergeAddress(b);
  }
}
