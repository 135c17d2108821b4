/**
 Powers of two, the bit operations the kernel uses on page frame numbers, and the dyadic
 blocks they describe.
 */
module Dyadic {

  function Pow2(n: nat): (r: nat)
    ensures r >= 1
  {
    if n == 0 then 1 else 2 * Pow2(n - 1)
  }

  lemma {:induction false} Pow2Monotone(a: nat, b: nat)
    requires a <= b
    ensures Pow2(a) <= Pow2(b)
    decreases b
  {
    if a < b {
      Pow2Monotone(a, b - 1);
    }
  }

  /** x >> n */
  function Shr(x: nat, n: nat): nat {
    if n == 0 then x else Shr(x, n - 1) / 2
  }

  /** x << n */
  function Shl(x: nat, n: nat): nat {
    if n == 0 then x else 2 * Shl(x, n - 1)
  }

  /** a ^ b */
  function BitXor(a: nat, b: nat): nat
    decreases a + b
  {
    if a == 0 && b == 0 then 0
    else (a % 2 + b % 2) % 2 + 2 * BitXor(a / 2, b / 2)
  }

  /** a & b */
  function BitAnd(a: nat, b: nat): nat {
    if a == 0 || b == 0 then 0
    else (a % 2) * (b % 2) + 2 * BitAnd(a / 2, b / 2)
  }

  /** The low n bits of x are clear: x & ((1 << n) - 1) == 0. */
  predicate Aligned(x: nat, n: nat) { Shl(Shr(x, n), n) == x }

  // ---------------------------------------------------------------------------
  // Shifting

  lemma {:induction false} ShlStep(c: nat, n: nat)
    ensures Shl(c + 1, n) == Shl(c, n) + Pow2(n)
    ensures Shl(2 * c, n) == 2 * Shl(c, n)
  {
    if n > 0 {
      ShlStep(c, n - 1);
    }
  }

  lemma {:induction false} ShlMonotone(a: nat, b: nat, n: nat)
    ensures a < b ==> Shl(a, n) + Pow2(n) <= Shl(b, n)
  {
    if n > 0 {
      ShlMonotone(a, b, n - 1);
    }
  }

  lemma {:induction false} ShrBounds(x: nat, n: nat)
    ensures Shl(Shr(x, n), n) <= x < Shl(Shr(x, n), n) + Pow2(n)
  {
    if n > 0 {
      ShrBounds(x, n - 1);
      var c := Shr(x, n - 1);
      ShlStep(c / 2, n - 1);
      ShlStep(c / 2 * 2, n - 1);
      assert c == c / 2 * 2 || c == c / 2 * 2 + 1;
    }
  }

  /** The quotient is unique. */
  lemma ShrUnique(x: nat, n: nat, c: nat)
    requires Shl(c, n) <= x < Shl(c, n) + Pow2(n)
    ensures Shr(x, n) == c
  {
    ShrBounds(x, n);
    ShlMonotone(c, Shr(x, n), n);
    ShlMonotone(Shr(x, n), c, n);
  }

  /** Pages in one cell stay in one cell at every coarser grain. */
  lemma {:induction false} ShrCoarser(x: nat, y: nat, n: nat, m: nat)
    requires n <= m && Shr(x, n) == Shr(y, n)
    ensures Shr(x, m) == Shr(y, m)
    decreases m
  {
    if n < m {
      ShrCoarser(x, y, n, m - 1);
    }
  }

  lemma {:induction false} ShrShift(x: nat, n: nat)
    ensures Shr(x, n + 1) == Shr(x / 2, n)
  {
    if n > 0 {
      ShrShift(x, n - 1);
    }
  }

  lemma AlignedMultiple(c: nat, n: nat)
    ensures Aligned(Shl(c, n), n) && Shr(Shl(c, n), n) == c
  {
    ShrUnique(Shl(c, n), n, c);
  }

  lemma {:induction false} AlignedFiner(x: nat, n: nat, m: nat)
    requires n <= m && Aligned(x, m)
    ensures Aligned(x, n)
    decreases m
  {
    if n < m {
      var c := Shr(x, m);
      ShlStep(c, m - 1);
      AlignedMultiple(2 * c, m - 1);
      AlignedFiner(x, n, m - 1);
    }
  }

  /** The kernel's test: no bit below the order is set. */
  lemma {:induction false} AlignedIsMaskTest(x: nat, n: nat)
    ensures Aligned(x, n) <==> BitAnd(x, Pow2(n) - 1) == 0
  {
    if n == 0 {
    } else if x == 0 {
      AlignedMultiple(0, n);
      ShlZero(n);
    } else {
      var m := Pow2(n) - 1;
      assert m % 2 == 1 && m / 2 == Pow2(n - 1) - 1;
      AlignedIsMaskTest(x / 2, n - 1);
      ShrShift(x, n - 1);
      assert (x % 2) * (m % 2) == x % 2;
    }
  }

  lemma {:induction false} ShlZero(n: nat)
    ensures Shl(0, n) == 0 && Shl(1, n) == Pow2(n)
  {
    if n > 0 {
      ShlZero(n - 1);
    }
  }

  /** __ffs: the position of the lowest set bit. */
  function Ffs(x: nat): (n: nat)
    requires x > 0
  {
    if x % 2 == 1 then 0 else 1 + Ffs(x / 2)
  }

  /** x is a multiple of 2^Ffs(x) and of no higher power. */
  lemma {:induction false} FfsIsAlignment(x: nat, n: nat)
    requires x > 0
    ensures Aligned(x, n) <==> n <= Ffs(x)
  {
    if n > 0 {
      ShrShift(x, n - 1);
      if x % 2 == 0 {
        FfsIsAlignment(x / 2, n - 1);
      }
    }
  }

  // ---------------------------------------------------------------------------
  // A block and its buddy

  /** 2^order contiguous pages starting at pfn. */
  datatype Block = Block(pfn: nat, order: nat)

  predicate Within(b: Block, x: nat) { b.pfn <= x < b.pfn + Pow2(b.order) }

  ghost function Pages(b: Block): set<nat> {
    set x | 0 <= x < b.pfn + Pow2(b.order) && Within(b, x)
  }

  /** __find_buddy_pfn */
  function FindBuddyPfn(pfn: nat, order: nat): nat { BitXor(pfn, Pow2(order)) }

  ghost function Buddy(b: Block): Block { Block(FindBuddyPfn(b.pfn, b.order), b.order) }

  /** The enclosing block of twice the size. */
  ghost function Parent(b: Block): Block { Block(Shl(Shr(b.pfn, b.order + 1), b.order + 1), b.order + 1) }

  lemma {:induction false} XorZero(a: nat)
    ensures BitXor(a, 0) == a == BitXor(0, a)
  {
    if a > 0 {
      XorZero(a / 2);
    }
  }

  /** Flipping bit `order` moves to the other half of the parent. */
  lemma {:induction false} XorPow2(a: nat, n: nat)
    ensures BitXor(a, Pow2(n)) == if Shr(a, n) % 2 == 0 then a + Pow2(n) else a - Pow2(n)
  {
    if n == 0 {
      XorZero(a / 2);
    } else {
      XorPow2(a / 2, n - 1);
      ShrShift(a, n - 1);
      XorDouble(a, Pow2(n - 1));
    }
  }

  lemma XorDouble(a: nat, p: nat)
    ensures BitXor(a, 2 * p) == a % 2 + 2 * BitXor(a / 2, p)
  {
    assert (2 * p) % 2 == 0 && (2 * p) / 2 == p;
  }

  function OtherCell(c: nat): nat { if c % 2 == 0 then c + 1 else c - 1 }

  lemma BuddyCell(b: Block)
    requires Aligned(b.pfn, b.order)
    ensures Buddy(b).pfn == Shl(OtherCell(Shr(b.pfn, b.order)), b.order)
    ensures Buddy(b).pfn == if Shr(b.pfn, b.order) % 2 == 0 then b.pfn + Pow2(b.order) else b.pfn - Pow2(b.order)
  {
    var c := Shr(b.pfn, b.order);
    XorPow2(b.pfn, b.order);
    if c % 2 == 0 {
      ShlStep(c, b.order);
    } else {
      ShlStep(c - 1, b.order);
    }
  }

  /** The buddy is aligned, sits in the neighbouring cell of the pair, and the relation is an involution. */
  lemma BuddyFacts(b: Block)
    requires Aligned(b.pfn, b.order)
    ensures Aligned(Buddy(b).pfn, b.order)
    ensures Shr(Buddy(b).pfn, b.order) == OtherCell(Shr(b.pfn, b.order))
    ensures Buddy(b).pfn == if Shr(b.pfn, b.order) % 2 == 0 then b.pfn + Pow2(b.order) else b.pfn - Pow2(b.order)
    ensures Buddy(Buddy(b)) == b && Buddy(b) != b
  {
    hide Pow2;
    hide Shr;
    hide Shl;
    hide BitXor;
    hide OtherCell;
    var c := Shr(b.pfn, b.order);
    BuddyCell(b);
    AlignedMultiple(OtherCell(c), b.order);
    BuddyCell(Buddy(b));
    OtherCellFacts(c);
    OtherCellFacts(OtherCell(c));
    ParentCell(b);
  }

  /** The merge address `buddy_pfn & pfn` is the lower of the two, and it is the parent's. */
  lemma MergeAddress(b: Block)
    requires Aligned(b.pfn, b.order)
    ensures BitAnd(Buddy(b).pfn, b.pfn) == Parent(b).pfn
    ensures Parent(b).pfn == (if Shr(b.pfn, b.order) % 2 == 0 then b.pfn else Buddy(b).pfn)
    ensures Aligned(Parent(b).pfn, b.order + 1)
    ensures Parent(Buddy(b)) == Parent(b)
  {
    hide Pow2;
    hide Shr;
    hide Shl;
    hide BitXor;
    hide BitAnd;
    hide OtherCell;
    BuddyFacts(b);
    BuddyCell(b);
    var c := Shr(b.pfn, b.order);
    var e := c / 2 * 2;
    ParentCell(b);
    AndPair(e, b.order);
    AndCommutes(Shl(e, b.order), Shl(e + 1, b.order));
    ParentCell(Buddy(b));
    OtherCellFacts(c);
  }

  lemma OtherCellFacts(c: nat)
    ensures OtherCell(c) / 2 == c / 2
    ensures if c % 2 == 0 then OtherCell(c) == c + 1 && c / 2 * 2 == c else OtherCell(c) == c - 1 == c / 2 * 2
  {
  }

  lemma ParentCell(b: Block)
    requires Aligned(b.pfn, b.order)
    ensures Parent(b) == Block(Shl(Shr(b.pfn, b.order) / 2 * 2, b.order), b.order + 1)
    ensures Aligned(Parent(b).pfn, b.order + 1)
    ensures b.pfn == Shl(Shr(b.pfn, b.order), b.order)
  {
    var c := Shr(b.pfn, b.order);
    ShlStep(c / 2, b.order);
    AlignedMultiple(c / 2, b.order + 1);
  }

  lemma {:induction false} AndCommutes(a: nat, b: nat)
    ensures BitAnd(a, b) == BitAnd(b, a)
  {
    if a != 0 && b != 0 {
      AndCommutes(a / 2, b / 2);
      assert (a % 2) * (b % 2) == (b % 2) * (a % 2);
    }
  }

  lemma {:induction false} AndSelf(a: nat)
    ensures BitAnd(a, a) == a
  {
    if a != 0 {
      AndSelf(a / 2);
      assert a % 2 == 0 || a % 2 == 1;
    }
  }

  /** For an even cell e, (e << n) & ((e + 1) << n) == e << n. */
  lemma {:induction false} AndPair(e: nat, n: nat)
    requires e % 2 == 0
    ensures BitAnd(Shl(e, n), Shl(e + 1, n)) == Shl(e, n)
  {
    if n == 0 {
      AndSelf(e / 2);
      assert (e + 1) / 2 == e / 2;
    } else {
      AndPair(e, n - 1);
      AndEven(Shl(e, n - 1), Shl(e + 1, n - 1));
    }
  }

  lemma AndEven(a: nat, b: nat)
    ensures BitAnd(2 * a, 2 * b) == 2 * BitAnd(a, b)
  {
    assert (2 * a) % 2 * ((2 * b) % 2) == 0;
  }

  /** Membership in an aligned block is membership in its cell. */
  lemma PagesAreCell(b: Block, x: nat)
    requires Aligned(b.pfn, b.order)
    ensures x in Pages(b) <==> Shr(x, b.order) == Shr(b.pfn, b.order)
  {
    ShrBounds(x, b.order);
    if x in Pages(b) {
      ShrUnique(x, b.order, Shr(b.pfn, b.order));
    }
  }

  /** Two aligned blocks are nested or disjoint. */
  lemma Nested(b: Block, c: Block, x: nat)
    requires Aligned(b.pfn, b.order) && Aligned(c.pfn, c.order) && b.order <= c.order
    requires x in Pages(b) && x in Pages(c)
    ensures Pages(b) <= Pages(c)
  {
    PagesAreCell(b, x);
    PagesAreCell(c, x);
    forall y | y in Pages(b) ensures y in Pages(c) {
      PagesAreCell(b, y);
      PagesAreCell(c, y);
      ShrCoarser(x, y, b.order, c.order);
    }
  }

  /** Aligned blocks of one order that share a page are equal. */
  lemma SameOrderSame(b: Block, c: Block, x: nat)
    requires Aligned(b.pfn, b.order) && Aligned(c.pfn, c.order) && b.order == c.order
    requires x in Pages(b) && x in Pages(c)
    ensures b == c
  {
    PagesAreCell(b, x);
    PagesAreCell(c, x);
  }

  /** A block and its buddy are disjoint and together fill their parent. */
  lemma ParentSplits(b: Block)
    requires Aligned(b.pfn, b.order)
    ensures Pages(b) !! Pages(Buddy(b))
    ensures Pages(Parent(b)) == Pages(b) + Pages(Buddy(b))
  {
    BuddyFacts(b);
    MergeAddress(b);
    var p := Pow2(b.order);
    assert Pow2(b.order + 1) == 2 * p;
    forall x: nat
      ensures Within(Parent(b), x) <==> Within(b, x) || Within(Buddy(b), x)
      ensures !(Within(b, x) && Within(Buddy(b), x))
    {
    }
  }

  /** Splitting a block in the middle yields two aligned halves that are buddies. */
  lemma HalvesOf(b: Block)
    requires Aligned(b.pfn, b.order) && b.order > 0
    ensures var lo, hi := Block(b.pfn, b.order - 1), Block(b.pfn + Pow2(b.order - 1), b.order - 1);
            && Aligned(lo.pfn, lo.order) && Aligned(hi.pfn, hi.order)
            && hi == Buddy(lo) && lo == Buddy(hi)
            && Parent(lo) == b
            && Pages(lo) !! Pages(hi) && Pages(b) == Pages(lo) + Pages(hi)
  {
    var lo := Block(b.pfn, b.order - 1);
    var c := Shr(b.pfn, b.order);
    ShlStep(c, b.order - 1);
    AlignedMultiple(2 * c, b.order - 1);
    BuddyFacts(lo);
    MergeAddress(lo);
    ParentSplits(lo);
  }

  lemma {:induction false} PagesCount(b: Block)
    ensures |Pages(b)| == Pow2(b.order)
  {
    IntervalCount(b.pfn, Pow2(b.order));
    assert Pages(b) == Interval(b.pfn, Pow2(b.order));
  }

  predicate From(lo: nat, x: nat) { lo <= x }

  ghost function Interval(lo: nat, n: nat): set<nat> { set x | 0 <= x < lo + n && From(lo, x) }

  lemma {:induction false} IntervalCount(lo: nat, n: nat)
    ensures |Interval(lo, n)| == n
  {
    if n == 0 {
      assert Interval(lo, n) == {};
    } else {
      IntervalCount(lo, n - 1);
      assert Interval(lo, n) == Interval(lo, n - 1) + {lo + n - 1};
    }
  }
}
