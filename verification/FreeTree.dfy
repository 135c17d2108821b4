/**
 Trees whose tag 0 marks what is free: the radix tree of an IDR (ROOT_IS_IDR) and the XArray of an IDA
 (xa_track_free).  One set of indices, `occ`, gives the tree its shape; another, `full`, is what tag 0 is clear on.
 For an IDR both are the allocated indices, whose items may be NULL; for an IDA they are the chunks with an entry
 and the chunks with a full bitmap.
 */
module FreeTree {
  import opened RadixState
  import opened RadixMoves
  import opened RadixKeys
  import opened RadixRoot
  import opened Options
  import opened Words

  const FREE: nat := 0

  /** Tag 0 on exactly the free indices. */
  function FreeSets(alloc: Pred): TagSets { (a: nat, i: nat) => a == 0 && !alloc(i) }

  ghost function FreeTags(alloc: Pred): Tags { TagsOf(FreeSets(alloc)) }

  ghost function Free(alloc: Pred): Pred { TagPred(FreeSets(alloc), 0) }

  /** Some allocated index needs all the digits of a root at level h. */
  ghost predicate TallFor(alloc: Pred, h: nat) { exists i: nat :: alloc(i) && Key(h, i) != 0 }

  /** Only indices in the tree can be full or have items. */
  ghost predicate Sparse(occ: Pred, full: Pred, v: Items) { forall i: nat | !occ(i) :: !full(i) && v(i).None? }

  /** Every index from lo up to, but not including, hi is full. */
  ghost predicate AllTaken(full: Pred, lo: nat, hi: nat) { forall i: nat | lo <= i < hi :: full(i) }

  lemma NoneSkipped(full: Pred, lo: nat)
    ensures AllTaken(full, lo, lo)
  {
  }

  lemma TakenOn(full: Pred, lo: nat, mid: nat, hi: nat)
    requires AllTaken(full, lo, mid) && AllTaken(full, mid, hi)
    ensures AllTaken(full, lo, hi)
  {
  }

  // ---------------------------------------------------------------------------
  // The lowest index below a slot

  function Low(l: nat, k: nat): nat { if l == 0 then k else Low(l - 1, 64 * k) }

  lemma {:induction false} LowBound(l: nat, k: nat, i: nat)
    ensures i < Low(l, k) <==> Key(l, i) < k
    decreases l
  {
    if l > 0 { LowBound(l - 1, 64 * k, i); }
  }

  lemma LowKey(l: nat, k: nat)
    ensures Key(l, Low(l, k)) == k
  {
    LowBound(l, k, Low(l, k));
    LowBound(l, k + 1, Low(l, k));
    LowGrows(l, k);
  }

  lemma {:induction false} LowGrows(l: nat, k: nat)
    ensures Low(l, k) < Low(l, k + 1)
    decreases l
  {
    if l > 0 { LowMonotone(l - 1, 64 * k, 64 * (k + 1)); }
  }

  lemma {:induction false} LowMonotone(l: nat, k: nat, k': nat)
    requires k < k'
    ensures Low(l, k) < Low(l, k')
    decreases l
  {
    if l > 0 { LowMonotone(l - 1, 64 * k, 64 * k'); }
  }

  /** next_index, for a node at the given level: the first index below its slot `offset`. */
  function NextIndex(index: nat, level: nat, offset: nat): nat { Low(level, 64 * Key(level + 1, index) + offset) }

  /** It is the source's (index & ~maxindex) + (offset << shift). */
  lemma {:induction false} LowIsProduct(l: nat, k: nat)
    ensures Low(l, k) == k * Pow64(l)
    decreases l
  {
    if l > 0 {
      LowIsProduct(l - 1, 64 * k);
      assert 64 * k * Pow64(l - 1) == k * (64 * Pow64(l - 1));
    }
  }

  // ---------------------------------------------------------------------------
  // Free indices below slots

  /** Where nothing is full, everything is free. */
  lemma FreeWhereNoneFull(full: Pred, l: nat, k: nat)
    requires !Below(full, l, k)
    ensures FreeTags(full)(0, l, k)
  {
    LowKey(l, k);
    var i := Low(l, k);
    if full(i) { BelowHit(full, l, i); }
    BelowHit(Free(full), l, i);
  }

  lemma FreeWhereUnused(occ: Pred, full: Pred, v: Items, l: nat, k: nat)
    requires Sparse(occ, full, v) && !Below(occ, l, k)
    ensures FreeTags(full)(0, l, k)
  {
    if Below(full, l, k) { BelowSubset(full, occ, l, k); }
    FreeWhereNoneFull(full, l, k);
  }

  lemma OtherTagsClear(full: Pred, a: nat, l: nat, k: nat)
    requires a != 0
    ensures !FreeTags(full)(a, l, k)
  {
    if FreeTags(full)(a, l, k) { var i := BelowWitness(TagPred(FreeSets(full), a), l, k); }
  }

  /** A slot without the FREE bit has no free index below it. */
  lemma NoneFree(full: Pred, l: nat, k: nat, i: nat)
    requires !FreeTags(full)(0, l, k) && Key(l, i) == k
    ensures full(i)
  {
    if !full(i) { BelowHit(Free(full), l, i); }
  }

  /** Every FREE bit says whether some index below its slot is not full. */
  lemma FreeBitIsExact(s: Tree, h: nat, occ: Pred, full: Pred, v: Items, q: Place, o: nat)
    requires Matches(s, h, ShapeOf(occ), FreeTags(full), v) && s.live(q) && o < 64
    ensures s.node(q).tag(FREE, o) <==> exists i: nat :: !full(i) && Key(q.level, i) == 64 * q.prefix + o
  {
    hide Matches;
    hide Key;
    var p, k := Free(full), 64 * q.prefix + o;
    LiveNode(s, h, ShapeOf(occ), FreeTags(full), v, q);
    NodeSlot(s, ShapeOf(occ), FreeTags(full), v, q, o);
    if Below(p, q.level, k) { var i := BelowWitness(p, q.level, k); assert !full(i); }
    if i: nat :| !full(i) && Key(q.level, i) == k { assert p(i); }
  }

  function AllFree(): (nat, nat) -> bool { (a: nat, o: nat) => a == 0 }

  /** The tags of a node put above the root: everything new is free, the old tree if it has a free index. */
  function GrowTags(rootFree: bool): (nat, nat) -> bool { (a: nat, o: nat) => a == 0 && (o > 0 || rootFree) }

  lemma GrowFree(s: Tree, h: nat, occ: Pred, full: Pred, v: Items)
    requires Matches(s, h, ShapeOf(occ), FreeTags(full), v) && Sparse(occ, full, v)
    ensures TagsAre(FreeTags(full), h + 1, 0, GrowTags(s.rootTag(0)))
    ensures forall a: nat | a < MAX_TAGS :: PutRoot(s.rootTag, 0, true)(a) == FreeTags(full)(a, h + 2, 0)
  {
    hide NodeOk;
    hide Below;
    hide Key;
    var t, w := FreeTags(full), ShapeOf(occ);
    forall a: nat, o: nat | a < MAX_TAGS && o < 64 ensures GrowTags(s.rootTag(0))(a, o) == t(a, h + 1, 64 * 0 + o) {
      if a != 0 {
        OtherTagsClear(full, a, h + 1, o);
      } else if o > 0 {
        assert !w(h + 1, o);
        FreeWhereUnused(occ, full, v, h + 1, o);
      }
    }
    assert !w(h + 1, 1);
    FreeWhereUnused(occ, full, v, h + 1, 1);
    BelowStep(Free(full), h + 1, 1);
    forall a: nat | a < MAX_TAGS ensures PutRoot(s.rootTag, 0, true)(a) == t(a, h + 2, 0) {
      if a != 0 {
        OtherTagsClear(full, a, h + 2, 0);
        OtherTagsClear(full, a, h + 1, 0);
      }
    }
  }

  /** Below an unused slot: no nodes, no items, all free. */
  lemma BareFree(occ: Pred, full: Pred, v: Items, index: nat, l: nat)
    requires Sparse(occ, full, v)
    ensures BareAt(occ, FreeTags(full), v, index, l, AllFree())
  {
    hide Key;
    hide Below;
    var w := PathShape(occ, index, l + 1);
    if l > 0 && !w(l, Key(l, index)) {
      var c := Place(l - 1, Key(l, index));
      forall o: nat | o < 64 ensures BareSlot(w, FreeTags(full), v, c, AllFree(), o) {
        var k := 64 * c.prefix + o;
        if Below(occ, c.level, k) { BelowStep(occ, c.level, k); }
        BelowLeaf(occ, k);
        FreeWhereUnused(occ, full, v, c.level, k);
        OtherTagsClear(full, 1, c.level, k);
        OtherTagsClear(full, 2, c.level, k);
      }
    }
  }

  lemma EmptyFree(full: Pred, h: nat)
    requires forall i: nat :: !full(i)
    ensures TagsAre(FreeTags(full), h, 0, AllFree())
    ensures FreeTags(full)(0, h + 1, 0) && !FreeTags(full)(1, h + 1, 0) && !FreeTags(full)(2, h + 1, 0)
  {
    forall l: nat, k: nat ensures FreeTags(full)(0, l, k) {
      if Below(full, l, k) { var i := BelowWitness(full, l, k); }
      FreeWhereNoneFull(full, l, k);
    }
    forall a: nat, l: nat, k: nat | a != 0 ensures !FreeTags(full)(a, l, k) { OtherTagsClear(full, a, l, k); }
  }

  lemma PlantShapeFor(s: Tree, h: nat, occ: Pred, full: Pred, v: Items, index: nat)
    requires Matches(s, h, OnlyRoot(h), FreeTags(full), NoItems()) && index <= MaxIndex(h)
    requires (forall i: nat :: !occ(i)) && Sparse(occ, full, v)
    ensures Matches(s, h, PathShape(occ, index, h + 1), FreeTags(full), v)
  {
    hide Matches;
    var w := PathShape(occ, index, h + 1);
    InTree(h, index);
    forall l: nat, k: nat ensures w(l, k) == OnlyRoot(h)(l, k) {
      if Below(occ, l, k) { var i := BelowWitness(occ, l, k); }
      if l > h { KeyStaysZero(h + 1, l, index); }
    }
    MatchesSame(s, h, OnlyRoot(h), FreeTags(full), NoItems(), w, FreeTags(full), v);
  }

  lemma BeyondIsUnused(s: Tree, h: nat, occ: Pred, t: Tags, v: Items, i: nat)
    requires Matches(s, h, ShapeOf(occ), t, v) && i > MaxIndex(h)
    ensures !occ(i)
  {
    hide Matches;
    hide Below;
    PathStarts(s, h, ShapeOf(occ), t, v, i);
    if occ(i) { BelowHit(occ, h + 1, i); }
  }

  lemma UnusedIsFree(occ: Pred, l: nat, i: nat)
    requires !ShapeOf(occ)(l, Key(l, i))
    ensures !occ(i)
  {
    if occ(i) { BelowHit(occ, l, i); }
  }

  // ---------------------------------------------------------------------------
  // Searching

  lemma LowUp(l: nat, p: nat)
    ensures Low(l, 64 * p + 64) == Low(l + 1, p + 1)
  {
  }

  /** Behind the last slot of the root the tree ends. */
  lemma PastRoot(s: Tree, h: nat, w: Shape, t: Tags, v: Items, q: Place, start: nat)
    requires Matches(s, h, w, t, v) && s.live(q) && s.node(q).parent.None? && start == Low(q.level + 1, q.prefix + 1)
    ensures start > MaxIndex(h)
  {
    hide Key;
    hide Low;
    LiveNode(s, h, w, t, v, q);
    LowKey(q.level + 1, q.prefix + 1);
    InTree(h, start);
  }

  /** Slots lo to o of a node without the FREE bit: all indices below them are full. */
  lemma Skipped(s: Tree, h: nat, w: Shape, full: Pred, v: Items, q: Place, lo: nat, o: nat)
    requires Matches(s, h, w, FreeTags(full), v) && s.live(q) && lo <= o <= 64
    requires forall x: nat | lo <= x < o :: !s.node(q).tag(FREE, x)
    ensures AllTaken(full, Low(q.level, 64 * q.prefix + lo), Low(q.level, 64 * q.prefix + o))
  {
    hide Matches;
    hide Below;
    hide Key;
    hide Low;
    var l := q.level;
    LiveNode(s, h, w, FreeTags(full), v, q);
    forall i: nat | Low(l, 64 * q.prefix + lo) <= i < Low(l, 64 * q.prefix + o) ensures full(i) {
      LowBound(l, 64 * q.prefix + lo, i);
      LowBound(l, 64 * q.prefix + o, i);
      var x := Key(l, i) - 64 * q.prefix;
      assert !s.node(q).tag(FREE, x);
      NodeSlot(s, w, FreeTags(full), v, q, x);
      NoneFree(full, l, Key(l, i), i);
    }
  }

  /** An index lies behind the start of its slot, and before the start of the next. */
  lemma InSlot(l: nat, i: nat)
    ensures Low(l, Key(l, i)) <= i < Low(l, Key(l, i) + 1)
  {
    LowBound(l, Key(l, i), i);
    LowBound(l, Key(l, i) + 1, i);
  }

  /** A later slot of the same node starts behind the index. */
  lemma NextSlot(q: Place, i: nat, o: nat)
    requires q.prefix == Key(q.level + 1, i) && o > Key(q.level, i) % 64
    ensures Low(q.level, 64 * q.prefix + o) > i
  {
    hide Key;
    hide Low;
    KeyUp(q.level, i);
    LowBound(q.level, 64 * q.prefix + o, i);
  }

  /** A node with a full slot is needed. */
  lemma TakenNode(full: Pred, l: nat, i: nat)
    requires !FreeTags(full)(0, l, Key(l, i))
    ensures Below(full, l + 1, Key(l + 1, i))
  {
    NoneFree(full, l, Key(l, i), i);
    BelowHit(full, l + 1, i);
  }

  /** A tree without the FREE bit at its root is full. */
  lemma FullTree(s: Tree, h: nat, w: Shape, full: Pred, v: Items)
    requires Matches(s, h, w, FreeTags(full), v) && !s.rootTag(0)
    ensures AllTaken(full, 0, MaxIndex(h) + 1)
  {
    hide NodeOk;
    hide Below;
    hide Key;
    forall i: nat | i <= MaxIndex(h) ensures full(i) {
      InTree(h, i);
      NoneFree(full, h + 1, 0, i);
    }
  }

  // ---------------------------------------------------------------------------
  // Sets of indices that gain or lose a member

  function With(p: Pred, i: nat): Pred { (j: nat) => p(j) || j == i }

  function Without(p: Pred, i: nat): Pred { (j: nat) => p(j) && j != i }

  lemma TallWith(occ: Pred, h: nat, index: nat)
    requires TallFor(occ, h) || Key(h, index) != 0
    ensures TallFor(With(occ, index), h)
  {
    hide Key;
    var p := With(occ, index);
    if TallFor(occ, h) {
      var i: nat :| occ(i) && Key(h, i) != 0;
      assert p(i);
    } else {
      assert p(index);
    }
  }

  lemma StillTallFor(occ: Pred, h: nat, index: nat)
    requires TallFor(occ, h)
    ensures TallFor(Without(occ, index), h) || Key(h, index) != 0
  {
    hide Key;
    var i: nat :| occ(i) && Key(h, i) != 0;
    assert i != index ==> Without(occ, index)(i);
  }

  lemma TallStaysFor(occ: Pred, h: nat, index: nat, l: nat)
    requires (TallFor(occ, h) || Key(h, index) != 0) && l < h && Below(occ, l + 1, Key(l + 1, index))
    ensures TallFor(occ, h)
  {
    hide Key;
    BelowUp(occ, l + 1, h, index);
    var i := BelowWitness(occ, h, Key(h, index));
  }

  lemma NoneLeft(s: Tree, h: nat, occ: Pred, full: Pred, v: Items, index: nat)
    requires Matches(s, h, PathShape(occ, index, h + 1), FreeTags(full), v) && Unused(PathShape(occ, index, h + 1), h, 0)
    requires Sparse(occ, full, v)
    ensures (forall i: nat :: !occ(i)) && s.rootTag(0) && !s.rootTag(1) && !s.rootTag(2)
  {
    hide NodeOk;
    hide Below;
    hide Key;
    var w := PathShape(occ, index, h + 1);
    forall i: nat ensures !occ(i) {
      KeyUp(h, i);
      assert w(h + 1, Key(h + 1, i)) ==> Key(h + 1, i) == 0;
      assert !Used(w, h, 0, Key(h, i) % 64);
      if occ(i) {
        BelowHit(occ, h, i);
        BelowHit(occ, h + 1, i);
      }
    }
    EmptyFree(full, h);
  }

  /** A root with more than its first slot in use is needed. */
  lemma RootIsTallFor(s: Tree, h: nat, occ: Pred, t: Tags, v: Items)
    requires Matches(s, h, ShapeOf(occ), t, v)
    requires s.node(Place(h, 0)).count != 1 || !Used(ShapeOf(occ), h, 0, 0)
    ensures TallFor(occ, h)
  {
    hide Below;
    hide Key;
    hide Matches;
    var w, m := ShapeOf(occ), h + 1;
    RootFacts(s, h, w, t, v);
    BelowRoot(s, h, w, t, v);
    var o := BelowSome(occ, m, 0);
    BelowDigitIs(occ, h, 0, o);
    var x: nat := o;
    if o == 0 {
      CountOne(w, h, 0, 64, 0);
      x :| x < 64 && x != 0 && Used(w, h, 0, x);
    }
    var i := BelowWitness(occ, h, x);
  }

  function RootAfterShrink(rootTag: nat -> bool, free: bool): nat -> bool {
    (a: nat) => if a == 0 && !free then false else rootTag(a)
  }

  /** The root bit that shrinking leaves is that of the first slot. */
  lemma ShrinkFree(s: Tree, h: nat, w: Shape, full: Pred, v: Items)
    requires Matches(s, h, w, FreeTags(full), v)
    ensures var rootTag := RootAfterShrink(s.rootTag, s.node(Place(h, 0)).tag(0, 0));
            forall a: nat | a < MAX_TAGS :: rootTag(a) == FreeTags(full)(a, h, 0)
  {
    hide Below;
    hide Key;
    hide NodeOk;
    var t, q := FreeTags(full), Place(h, 0);
    RootFacts(s, h, w, t, v);
    LiveNode(s, h, w, t, v, q);
    RootBit(s, h, w, t, v);
    var rootTag := RootAfterShrink(s.rootTag, s.node(q).tag(0, 0));
    forall a: nat | a < MAX_TAGS ensures rootTag(a) == t(a, h, 0) {
      assert s.rootTag(a) == t(a, h + 1, 0);
      if a != 0 {
        OtherTagsClear(full, a, h, 0);
        OtherTagsClear(full, a, h + 1, 0);
      } else if t(0, h, 0) {
        BelowStep(Free(full), h, 0);
      }
    }
  }

  lemma RootBit(s: Tree, h: nat, w: Shape, t: Tags, v: Items)
    requires NodeOk(s, h, w, t, v, Place(h, 0))
    ensures s.node(Place(h, 0)).tag(0, 0) == t(0, h, 0)
  {
    assert SlotOk(s, w, t, v, Place(h, 0), 0);
  }

  // ---------------------------------------------------------------------------
  // Steps on the memory

  /** One more node above the root. */
  method AddRoot(root: Root, h: nat, ghost occ: Pred, ghost full: Pred, ghost v: Items)
    requires root.head == Ptr(Place(h, 0)) && Matches(root.State(), h, ShapeOf(occ), FreeTags(full), v) && Sparse(occ, full, v)
    modifies root
    ensures root.head == Ptr(Place(h + 1, 0)) && Matches(root.State(), h + 1, ShapeOf(occ), FreeTags(full), v)
  {
    hide Matches;
    hide Below;
    GrowFree(root.State(), h, occ, full, v);
    root.GrowRoot(h, GrowTags(root.rootTag(FREE)), PutRoot(root.rootTag, FREE, true), ShapeOf(occ), FreeTags(full), v);
  }

  /** The root node of an empty tree. */
  method PlantRoot(root: Root, h: nat, ghost index: nat, ghost occ: Pred, ghost full: Pred, ghost v: Items)
    requires Bald(root.State(), Empty) && root.rootTag(0) && !root.rootTag(1) && !root.rootTag(2) && index <= MaxIndex(h)
    requires (forall i: nat :: !occ(i)) && Sparse(occ, full, v)
    modifies root
    ensures root.head == Ptr(Place(h, 0)) && Matches(root.State(), h, PathShape(occ, index, h + 1), FreeTags(full), v)
  {
    hide Matches;
    EmptyFree(full, h);
    PlantedKeeps(root.State(), h, FreeTags(full), AllFree());
    PlantShapeFor(Planted(root.State(), h, AllFree()), h, occ, full, v, index);
    root.Plant(h, AllFree());
  }

  /** From a node on the way down to the leaf of an index, adding nodes with all indices free where there are none. */
  method CreatePath(root: Root, from: Place, index: nat, ghost h: nat, ghost occ: Pred, ghost full: Pred, ghost v: Items)
    returns (q: Place)
    requires OnPath(root.State(), h, from, index) && Sparse(occ, full, v)
    requires Matches(root.State(), h, PathShape(occ, index, from.level + 1), FreeTags(full), v)
    modifies root`node, root`live
    ensures q.level == 0 && OnPath(root.State(), h, q, index)
    ensures Matches(root.State(), h, PathShape(occ, index, 1), FreeTags(full), v)
    ensures occ(index) ==> root.State() == old(root.State())
  {
    hide Matches;
    hide Below;
    hide Key;
    hide BareAt;
    forall l: nat ensures BareAt(occ, FreeTags(full), v, index, l, AllFree()) { BareFree(occ, full, v, index, l); }
    q := root.DownToLeaf(from, index, AllFree(), h, occ, FreeTags(full), v);
  }

  /** radix_tree_find_next_bit and xas_find_chunk, for the FREE tag */
  method FindNextBit(root: Root, q: Place, offset: nat) returns (o: nat)
    requires offset <= 64
    ensures offset <= o <= 64 && (o < 64 ==> root.node(q).tag(FREE, o))
    ensures forall x: nat | offset <= x < o :: !root.node(q).tag(FREE, x)
  {
    o := offset;
    while o < 64 && !root.node(q).tag(FREE, o)
      invariant offset <= o <= 64 && forall x: nat | offset <= x < o :: !root.node(q).tag(FREE, x)
    {
      o := o + 1;
    }
  }

  /** One turn of radix_tree_shrink or xas_shrink that goes a level down. */
  method ShrinkRoot(root: Root, ghost h: nat, ghost occ: Pred, ghost full: Pred, ghost v: Items)
    requires root.head == Ptr(Place(h, 0)) && h > 0 && Matches(root.State(), h, ShapeOf(occ), FreeTags(full), v)
    requires root.node(Place(h, 0)).count == 1 && root.node(Place(h, 0)).slot(0) != Empty
    modifies root
    ensures root.head == Ptr(Place(h - 1, 0)) && Matches(root.State(), h - 1, ShapeOf(occ), FreeTags(full), v)
  {
    hide Matches;
    hide Below;
    hide Key;
    ShrinkFree(root.State(), h, ShapeOf(occ), full, v);
    root.ShrinkOnce(h, RootAfterShrink(root.rootTag, root.node(root.head.place).tag(FREE, 0)), ShapeOf(occ), FreeTags(full), v);
  }

  /** An empty root node goes away: everything is free. */
  method FellRoot(root: Root, ghost h: nat, ghost index: nat, ghost occ: Pred, ghost full: Pred, ghost v: Items)
    requires root.head == Ptr(Place(h, 0)) && Unused(PathShape(occ, index, h + 1), h, 0) && Sparse(occ, full, v)
    requires Matches(root.State(), h, PathShape(occ, index, h + 1), FreeTags(full), v)
    modifies root
    ensures Bald(root.State(), Empty) && root.rootTag(0) && !root.rootTag(1) && !root.rootTag(2) && forall i: nat :: !occ(i)
  {
    hide Matches;
    hide Below;
    hide Key;
    FelledIsBald(root.State(), h, PathShape(occ, index, h + 1), FreeTags(full), v, Empty, root.rootTag);
    NoneLeft(root.State(), h, occ, full, v, index);
    root.Fell(h, Empty, root.rootTag);
  }
}
