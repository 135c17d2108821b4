/** ID allocation (kernel/lib/idr.c and idr_get_free of kernel/lib/radix-tree.c), against a set of allocated IDs. */
module Idr {
  import opened RadixState
  import opened RadixMoves
  import opened RadixKeys
  import opened RadixRoot
  import opened FreeTree
  import opened Options
  import opened Words

  /** The memory is the tree of the allocated indices and their items; an IDR keeps its lowest root node. */
  ghost predicate IsIdr(s: Tree, alloc: Pred, v: Items) {
    Sparse(alloc, alloc, v) &&
    match s.head
    case Empty => Bald(s, Empty) && (forall i: nat :: !alloc(i)) && s.rootTag(0) && !s.rootTag(1) && !s.rootTag(2)
    case Item(_) => false
    case Ptr(q) =>
      && q.prefix == 0 && Matches(s, q.level, ShapeOf(alloc), FreeTags(alloc), v)
      && (q.level == 0 || TallFor(alloc, q.level))
  }

  /** How a search through the present tree ends. */
  datatype Found = NoSpace | Beyond(start: nat) | At(leaf: Place, index: nat)

  class Idr {
    const root: Root               // idr_rt
    const base: nat                // idr_base
    var next: nat                  // idr_next
    ghost var alloc: Pred          // the allocated indices
    ghost var val: Items           // and the pointers stored for them

    ghost predicate Valid()
      reads this, root
    {
      IsIdr(root.State(), alloc, val)
    }

    constructor (base: nat)
      ensures Valid() && forall i: nat :: !alloc(i)
      ensures fresh(root) && this.base == base
    {
      root := new Root(a => a == FREE);
      this.base, next := base, 0;
      alloc, val := (_ => false), NoItems();
    }

    /** An index whose leaf slot stands ready: the whole path to it exists, and it is free. */
    ghost predicate Ready(h: nat, q: Place, index: nat)
      reads this, root
    {
      && root.head == Ptr(Place(h, 0)) && q.level == 0 && OnPath(root.State(), h, q, index) && !alloc(index)
      && Matches(root.State(), h, PathShape(alloc, index, 1), FreeTags(alloc), val)
      && Sparse(alloc, alloc, val)
      && (h == 0 || TallFor(alloc, h) || Key(h, index) != 0)
    }

    // -------------------------------------------------------------------------
    // Making room

    /** radix_tree_extend for an index beyond the tree, and the first node of an empty one. */
    method PrepareRoot(index: nat) returns (level: nat)
      requires Valid() && (root.head.Ptr? ==> index > MaxIndex(root.head.place.level))
      modifies root
      ensures root.head == Ptr(Place(level, 0)) && index <= MaxIndex(level)
      ensures Matches(root.State(), level, PathShape(alloc, index, level + 1), FreeTags(alloc), val)
      ensures level == 0 || Key(level, index) != 0
    {
      hide Matches;
      hide Below;
      hide Key;
      level := if root.head.Ptr? then root.head.place.level + 1 else 0;
      while index > MaxIndex(level)
        invariant level == 0 || index > MaxIndex(level - 1)
        invariant root.head.Ptr? ==> root.head.place.level < level
        modifies {}
        decreases index - MaxIndex(level)
      {
        MaxIndexGrows(level);
        level := level + 1;
      }
      if level > 0 { InTree(level - 1, index); }
      if root.head.Empty? {
        PlantRoot(root, level, index, alloc, alloc, val);
        return;
      }
      var h := root.head.place.level;
      while h < level
        invariant h <= level && root.head == Ptr(Place(h, 0))
        invariant Matches(root.State(), h, ShapeOf(alloc), FreeTags(alloc), val)
      {
        AddRoot(root, h, alloc, alloc, val);
        h := h + 1;
      }
      TopShape(root.State(), level, alloc, FreeTags(alloc), val, index);
    }

    // -------------------------------------------------------------------------
    // Finding a free index

    /** Out of a node whose last slots are all taken, up to the first node that has a slot behind it. */
    method ClimbUp(start: nat, q0: Place, offset: nat, ghost h: nat) returns (q: Option<Place>, o: nat)
      requires Matches(root.State(), h, ShapeOf(alloc), FreeTags(alloc), val) && root.live(q0) && offset <= 64
      requires start == Low(q0.level, 64 * q0.prefix + offset)
      ensures q.Some? ==> o < 64 && OnPath(root.State(), h, q.value, start) && Key(q.value.level, start) % 64 == o
      ensures q.Some? ==> (offset < 64 ==> q.value == q0 && o == offset) && (offset == 64 ==> q.value.level > q0.level)
      ensures q.None? ==> start > MaxIndex(h) && offset == 64
    {
      hide Matches;
      hide Key;
      hide Low;
      var p := q0;
      o := offset;
      ghost var w := ShapeOf(alloc);
      LiveLevel(root.State(), h, w, FreeTags(alloc), val, p);
      while o == 64
        invariant root.live(p) && o <= 64 && start == Low(p.level, 64 * p.prefix + o) && p.level <= h
        invariant (offset < 64 ==> p == q0 && o == offset) && ((p == q0 && o == offset) || p.level > q0.level)
        decreases h - p.level
      {
        LiveNode(root.State(), h, w, FreeTags(alloc), val, p);
        LowUp(p.level, p.prefix);
        o := root.node(p).offset + 1;
        if root.node(p).parent.None? {
          PastRoot(root.State(), h, w, FreeTags(alloc), val, p, start);
          return None, o;
        }
        ParentLive(root.State(), h, w, FreeTags(alloc), val, p);
        p := root.node(p).parent.value;
      }
      LowKey(p.level, 64 * p.prefix + o);
      KeyUp(p.level, start);
      q := Some(p);
    }

    /** Past a slot without free indices: the next candidate in the tree, behind everything that is taken. */
    method SkipTaken(start: nat, q: Place, max: nat, ghost h: nat) returns (r: Found, c: Option<Place>)
      requires OnPath(root.State(), h, q, start) && !root.node(q).tag(FREE, Key(q.level, start) % 64)
      requires Matches(root.State(), h, ShapeOf(alloc), FreeTags(alloc), val)
      ensures r.NoSpace? ==> AllTaken(alloc, start, max + 1)
      ensures r.Beyond? ==> start < r.start <= max && AllTaken(alloc, start, r.start)
      ensures r.Beyond? && c.None? ==> r.start > MaxIndex(h)
      ensures r.Beyond? && c.Some? ==> OnPath(root.State(), h, c.value, r.start)
      ensures r.Beyond? && c.Some? && c.value.level == 0 ==> !alloc(r.start)
      ensures !r.At?
    {
      hide Matches;
      hide Below;
      hide Key;
      hide Low;
      ghost var w, t := ShapeOf(alloc), FreeTags(alloc);
      PathSlot(root.State(), h, w, t, val, q, start);
      var o := FindNextBit(root, q, Key(q.level, start) % 64 + 1);
      var next := NextIndex(start, root.node(q).level, o);
      Skipped(root.State(), h, w, alloc, val, q, Key(q.level, start) % 64, o);
      InSlot(q.level, start);
      NextSlot(q, start, o);
      if next > max {
        return NoSpace, None;
      }
      var up, o' := ClimbUp(next, q, o, h);
      if up.Some? && up.value.level == 0 {
        PathSlot(root.State(), h, w, t, val, up.value, next);
        KeyBase(next);
        LeafTag(FreeSets(alloc), 0, next);
      }
      return Beyond(next), up;
    }

    /** The search of idr_get_free below the present root. */
    method Search(from: nat, max: nat) returns (r: Found)
      requires Valid() && root.head.Ptr? && from <= MaxIndex(root.head.place.level) && from <= max
      modifies root`node, root`live
      ensures r.At? ==> Ready(root.head.place.level, r.leaf, r.index) && from <= r.index <= max && AllTaken(alloc, from, r.index)
      ensures !r.At? ==> root.State() == old(root.State())
      ensures r.NoSpace? ==> AllTaken(alloc, from, max + 1)
      ensures r.Beyond? ==> from < r.start <= max && r.start > MaxIndex(root.head.place.level) && AllTaken(alloc, from, r.start)
    {
      hide Matches;
      hide Below;
      hide Key;
      hide BareAt;
      hide AllTaken;
      hide PathShape;
      ghost var h, t := root.head.place.level, FreeTags(alloc);
      var start, q := from, root.head.place;
      NoneSkipped(alloc, from);
      PathStarts(root.State(), h, ShapeOf(alloc), t, val, start);
      PathJoins(root.State(), h, alloc, t, val, start, q);
      while true
        invariant OnPath(root.State(), h, q, start) && from <= start <= max && AllTaken(alloc, from, start)
        invariant Matches(root.State(), h, PathShape(alloc, start, q.level + 1), t, val)
        invariant Below(alloc, q.level + 1, Key(q.level + 1, start)) ==> root.State() == old(root.State())
        decreases max - start, q.level
      {
        PathSlot(root.State(), h, PathShape(alloc, start, q.level + 1), t, val, q, start);
        if !root.node(q).tag(FREE, Key(q.level, start) % 64) {
          TakenNode(alloc, q.level, start);
          PathEnds(root.State(), h, alloc, t, val, start, q.level);
          var s, c := SkipTaken(start, q, max, h);
          if s.NoSpace? {
            TakenOn(alloc, from, start, max + 1);
            return NoSpace;
          }
          TakenOn(alloc, from, start, s.start);
          if c.None? {
            return s;
          }
          start, q := s.start, c.value;
          PathJoins(root.State(), h, alloc, t, val, start, q);
          PathSlot(root.State(), h, PathShape(alloc, start, q.level + 1), t, val, q, start);
        }
        if root.node(q).level == 0 {
          KeyBase(start);
          LeafTag(FreeSets(alloc), 0, start);
          return At(q, start);
        }
        StepUp(alloc, q.level, start);
        BareFree(alloc, alloc, val, start, q.level);
        q := root.Down(start, q, AllFree(), h, alloc, t, val);
      }
    }

    /** idr_get_free: the least free index from `from` on, with a leaf slot for it; None is -ENOSPC. */
    method GetFree(from: nat, max: nat) returns (leaf: Place, r: Option<nat>)
      requires Valid()
      modifies root
      ensures r.Some? ==> root.head.Ptr? && Ready(root.head.place.level, leaf, r.value)
      ensures r.Some? ==> !alloc(r.value) && from <= r.value <= max && AllTaken(alloc, from, r.value)
      ensures r.None? ==> root.State() == old(root.State()) && AllTaken(alloc, from, max + 1)
    {
      hide Matches;
      hide Below;
      hide Key;
      var start := from;
      while true
        invariant Valid() && root.State() == old(root.State()) && from <= start && AllTaken(alloc, from, start)
        decreases max + 1 - start
      {
        if root.head.Ptr? && !root.rootTag(FREE) {
          FullTree(root.State(), root.head.place.level, ShapeOf(alloc), alloc, val);
          start := Max(start, MaxIndex(root.head.place.level) + 1);
        }
        if start > max {
          return Place(0, 0), None;
        }
        if root.head.Empty? || start > MaxIndex(root.head.place.level) {
          leaf := GrowTo(start);
          return leaf, Some(start);
        }
        var f := Search(start, max);
        if f.At? {
          return f.leaf, Some(f.index);
        }
        if f.NoSpace? {
          return Place(0, 0), None;
        }
        start := f.start;
      }
    }

    /** The leaf of an index beyond the present tree. */
    method GrowTo(index: nat) returns (leaf: Place)
      requires Valid() && (root.head.Ptr? ==> index > MaxIndex(root.head.place.level))
      modifies root
      ensures root.head.Ptr? && Ready(root.head.place.level, leaf, index)
    {
      hide Matches;
      hide Below;
      hide Key;
      if root.head.Ptr? { BeyondIsUnused(root.State(), root.head.place.level, alloc, FreeTags(alloc), val, index); }
      var level := PrepareRoot(index);
      PathStarts(root.State(), level, PathShape(alloc, index, level + 1), FreeTags(alloc), val, index);
      leaf := CreatePath(root, root.head.place, index, level, alloc, alloc, val);
    }

    // -------------------------------------------------------------------------
    // Allocation

    /** radix_tree_iter_replace and radix_tree_iter_tag_clear on a free index whose slot is ready. */
    method Take(leaf: Place, index: nat, ptr: Option<nat>, ghost h: nat)
      requires Ready(h, leaf, index)
      modifies this`alloc, this`val, root`node, root`rootTag
      ensures Valid() && alloc == With(old(alloc), index) && val == PutItem(old(val), index, ptr)
    {
      hide Matches;
      hide Below;
      hide Key;
      ghost var w, t := PathShape(alloc, index, 1), FreeTags(alloc);
      PathSlot(root.State(), h, w, t, val, leaf, index);
      KeyBase(index);
      LeafTag(FreeSets(alloc), 0, index);
      BelowLeaf(alloc, index);
      var o := Key(0, index) % 64;
      var n := root.node(leaf);
      var count := n.count + CalculateCount(n.tag(FREE, o), ToEntry(ptr), n.slot(o));
      ItemKeeps(root.State(), h, w, t, val, leaf, o, ptr, true);
      Filled(WithItem(root.State(), leaf, o, ptr, count), h, alloc, t, PutItem(val, index, ptr), index);
      root.node := PutNode(root.node, leaf, n.(slot := PutSlot(n.slot, o, ToEntry(ptr)), count := count));
      assert root.node(leaf).count > 0;   // so delete_node stops here, and does not shrink a leaf into the root of an IDR
      TakeTag(leaf, index, h, PutItem(val, index, ptr));
      if h > 0 { TallWith(alloc, h, index); }
      alloc := With(alloc, index);
      val := PutItem(val, index, ptr);
    }

    method TakeTag(leaf: Place, index: nat, ghost h: nat, ghost v: Items)
      requires leaf.level == 0 && OnPath(root.State(), h, leaf, index)
      requires Matches(root.State(), h, ShapeOf(With(alloc, index)), FreeTags(alloc), v)
      modifies root`node, root`rootTag
      ensures Matches(root.State(), h, ShapeOf(With(alloc, index)), FreeTags(With(alloc, index)), v)
    {
      hide Matches;
      hide Below;
      hide Key;
      ghost var w, g := ShapeOf(With(alloc, index)), FreeSets(alloc);
      root.ClearTag(leaf, FREE, index, h, w, g, v);
      SameTags(root.State(), h, w, v, Untagged(g, 0, index), FreeSets(With(alloc, index)));
    }

    /** max - base, in 64 bits. */
    function Limit(max: nat): (r: nat)
      requires base < WORD && max < WORD
      ensures r < WORD && (r + base - max) % WORD == 0
    {
      if base <= max then max - base else WORD + max - base
    }

    /** The index from which an ID is searched. */
    function From(id: nat): nat { Max(id, base) - base }

    /** The ID of an index, in 32 bits. */
    function IdOf(index: nat): nat { (index + base) % UINT }

    /**
     idr_alloc_u32: the least unused ID that is at least nextid and the base of the IDR and at most max;
     None is -ENOSPC, and says that there is no such ID.  If max is below the base, there is no ID to be had, but the
     search goes on to the index that the subtraction wraps to and finds one all the same; see MaxBelowBase.
     */
    method AllocU32(ptr: Option<nat>, nextid: nat, max: nat) returns (r: Option<nat>, ghost index: nat)
      requires Valid() && base < UINT && nextid < UINT && max < WORD
      modifies this`alloc, this`val, root
      ensures Valid()
      ensures r.None? ==> AllTaken(old(alloc), From(nextid), Limit(max) + 1) && alloc == old(alloc) && val == old(val)
                          && root.State() == old(root.State())
      ensures r.Some? ==> From(nextid) <= index <= Limit(max) && !old(alloc)(index) && AllTaken(old(alloc), From(nextid), index)
      ensures r.Some? ==> alloc == With(old(alloc), index) && val == PutItem(old(val), index, ptr) && r.value == IdOf(index)
      ensures r.Some? && max < UINT ==> (Max(nextid, base) <= r.value <= max <==> base <= max)
      ensures r.Some? && base <= max < UINT ==> r.value == index + base
    {
      hide IsIdr;
      hide Ready;
      hide AllTaken;
      hide With;
      hide PutItem;
      var id := if nextid < base then 0 else nextid - base;
      var leaf, f := GetFree(id, Limit(max));
      if f.None? {
        return None, 0;
      }
      Take(leaf, f.value, ptr, root.head.place.level);
      return Some(IdOf(f.value)), f.value;
    }

    /** The 32 bits of an idr_next or a start, read as a signed integer and as an unsigned one. */
    static function ToInt(id: nat): (r: int)
      requires id < UINT
      ensures INT_MIN <= r <= INT_MAX && (id - r) % UINT == 0
    {
      if id > INT_MAX then id - UINT else id
    }

    static function ToU32(start: int): (r: nat)
      requires INT_MIN <= start <= INT_MAX
      ensures r < UINT && (r - start) % UINT == 0
    {
      if start < 0 then UINT + start else start
    }

    /**
     idr_alloc_cyclic: the least unused ID from next on, unless that is below start, or else the least one from start
     on; it fails only if all IDs from start to max are taken.
     */
    method AllocCyclic(ptr: Option<nat>, start: int, end: int) returns (r: Option<nat>, ghost index: nat)
      requires Valid() && base < UINT && next < UINT && INT_MIN <= start <= INT_MAX && end <= INT_MAX
      modifies this, root
      ensures Valid() && next < UINT
      ensures var max := if end > 0 then end - 1 else INT_MAX; var low := ToU32(start);
              var first := if ToInt(old(next)) < start then low else old(next);
              && (r.None? ==> AllTaken(old(alloc), From(first), Limit(max) + 1) && AllTaken(old(alloc), From(low), Limit(max) + 1)
                              && alloc == old(alloc) && val == old(val) && next == old(next))
              && (r.Some? ==>
                    && index <= Limit(max) && !old(alloc)(index)
                    && (if index >= From(first) then AllTaken(old(alloc), From(first), index)
                        else AllTaken(old(alloc), From(first), Limit(max) + 1)
                             && From(low) <= index && AllTaken(old(alloc), From(low), index))
                    && alloc == With(old(alloc), index) && val == PutItem(old(val), index, ptr)
                    && r.value == IdOf(index) && next == (r.value + 1) % UINT
                    && (base <= max ==> r.value == index + base && r.value <= max && next == r.value + 1))
    {
      hide IsIdr;
      hide With;
      hide PutItem;
      var max := if end > 0 then end - 1 else INT_MAX;
      var id := if ToInt(next) < start then ToU32(start) else next;
      r, index := AllocU32(ptr, id, max);
      if r.None? && id > ToU32(start) {
        r, index := AllocU32(ptr, ToU32(start), max);
      }
      if r.Some? {
        next := (r.value + 1) % UINT;
      }
    }

    /** The index of an ID: a 64-bit subtraction, which wraps for an ID below the base. */
    function Index(id: nat): (r: nat)
      requires base < WORD && id < WORD
      ensures r < WORD && (r + base - id) % WORD == 0
    {
      if id < base then WORD + id - base else id - base
    }

    /** idr_find */
    method Find(id: nat) returns (r: Option<nat>)
      requires Valid() && base < WORD && id < WORD
      ensures r == val(Index(id))
    {
      hide Matches;
      hide Below;
      hide Key;
      if root.head.Empty? {
        return None;
      }
      var q, e, stop := root.Walk(Index(id), root.head.place.level, ShapeOf(alloc), FreeTags(alloc), val);
      if q.None? { UnusedIsFree(alloc, stop, Index(id)); }
      return LeafItem(e);
    }

    /** An ID that was handed out leads to its pointer until it is removed, and then everything is as it was. */
    method AllocFindRemove(ptr: Option<nat>, nextid: nat, max: nat)
      returns (id: Option<nat>, found: Option<nat>, removed: Option<nat>)
      requires Valid() && base <= max < UINT && nextid < UINT
      modifies this`alloc, this`val, root
      ensures Valid() && (id.Some? ==> found == removed == ptr && base <= id.value <= max)
      ensures forall i: nat :: alloc(i) == old(alloc)(i) && (alloc(i) ==> val(i) == old(val)(i))
    {
      hide IsIdr;
      ghost var index;
      id, index := AllocU32(ptr, nextid, max);
      found, removed := None, None;
      if id.Some? {
        found := Find(id.value);
        removed := Remove(id.value);
      }
    }

    // -------------------------------------------------------------------------
    // Removal

    /** idr_remove: the pointer that was stored; exactly this ID becomes free. */
    method Remove(id: nat) returns (r: Option<nat>)
      requires Valid() && base < WORD && id < WORD
      modifies this`alloc, this`val, root
      ensures Valid() && r == old(val)(Index(id))
      ensures forall i: nat :: alloc(i) == (old(alloc)(i) && i != Index(id))
      ensures forall i: nat :: val(i) == if i == Index(id) then None else old(val)(i)
    {
      hide Matches;
      hide Below;
      hide Key;
      if root.head.Empty? {
        return None;
      }
      var index := Index(id);
      ghost var h := root.head.place.level;
      var q, e, stop := root.Walk(index, h, ShapeOf(alloc), FreeTags(alloc), val);
      if q.None? {
        UnusedIsFree(alloc, stop, index);
        return None;
      }
      r := LeafItem(e);
      PathSlot(root.State(), h, ShapeOf(alloc), FreeTags(alloc), val, q.value, index);
      KeyBase(index);
      LeafTag(FreeSets(alloc), 0, index);
      if e.Empty? && root.node(q.value).tag(FREE, Key(0, index) % 64) {
        return;
      }
      Release(q.value, index, h);
    }

    /** __radix_tree_delete: set the FREE bit, clear the slot, prune. */
    method Release(leaf: Place, index: nat, ghost h: nat)
      requires Valid() && root.head == Ptr(Place(h, 0)) && leaf.level == 0 && OnPath(root.State(), h, leaf, index) && alloc(index)
      modifies this`alloc, this`val, root
      ensures Valid() && alloc == Without(old(alloc), index) && val == PutItem(old(val), index, None)
    {
      hide Matches;
      hide Below;
      hide Key;
      ghost var alloc' := Without(alloc, index);
      root.RaiseUp(leaf, index, h, ShapeOf(alloc), FreeSets(alloc), val);
      SameTags(root.State(), h, ShapeOf(alloc), val, Tagged(FreeSets(alloc), 0, index), FreeSets(alloc'));
      ClearSlot(leaf, index, h);
      if h > 0 { StillTallFor(alloc, h, index); }
      alloc := alloc';
      val := PutItem(val, index, None);
      Prune(leaf, index, h);
    }

    /** replace_slot with NULL */
    method ClearSlot(leaf: Place, index: nat, ghost h: nat)
      requires leaf.level == 0 && OnPath(root.State(), h, leaf, index) && alloc(index)
      requires Matches(root.State(), h, ShapeOf(alloc), FreeTags(Without(alloc, index)), val)
      modifies root`node
      ensures var alloc', v' := Without(alloc, index), PutItem(val, index, None);
              Matches(root.State(), h, PathShape(alloc', index, 1), FreeTags(alloc'), v')
    {
      hide Matches;
      hide Below;
      hide Key;
      ghost var w, t := ShapeOf(alloc), FreeTags(Without(alloc, index));
      PathSlot(root.State(), h, w, t, val, leaf, index);
      KeyBase(index);
      BelowLeaf(alloc, index);
      var o := Key(0, index) % 64;
      var n := root.node(leaf);
      ItemKeeps(root.State(), h, w, t, val, leaf, o, None, false);
      Emptied(WithItem(root.State(), leaf, o, None, n.count - 1), h, alloc, t, PutItem(val, index, None), index);
      root.node := PutNode(root.node, leaf, n.(slot := PutSlot(n.slot, o, Empty), count := n.count - 1));
    }

    /** delete_node */
    method Prune(leaf: Place, index: nat, ghost h: nat)
      requires root.head == Ptr(Place(h, 0)) && leaf.level == 0 && OnPath(root.State(), h, leaf, index)
      requires Matches(root.State(), h, PathShape(alloc, index, 1), FreeTags(alloc), val)
      requires Sparse(alloc, alloc, val) && (h == 0 || TallFor(alloc, h) || Key(h, index) != 0)
      modifies root
      ensures Valid()
    {
      hide Matches;
      hide Below;
      hide Key;
      var q := root.PruneUp(leaf, index, h, alloc, FreeTags(alloc), val);
      if q.None? {
        FellRoot(root, h, index, alloc, alloc, val);
      } else if Ptr(q.value) == root.head {
        Shrink(h);
      } else {
        TallStaysFor(alloc, h, index, q.value.level);
      }
    }

    /** radix_tree_shrink, which for an IDR stops above a leaf */
    method Shrink(ghost top: nat)
      requires root.head == Ptr(Place(top, 0)) && Matches(root.State(), top, ShapeOf(alloc), FreeTags(alloc), val)
      requires Sparse(alloc, alloc, val)
      modifies root
      ensures Valid()
    {
      hide Matches;
      hide Below;
      hide Key;
      ghost var h, t := top, FreeTags(alloc);
      while true
        invariant root.head == Ptr(Place(h, 0)) && Matches(root.State(), h, ShapeOf(alloc), t, val)
        decreases h
      {
        var q := root.head.place;
        RootFacts(root.State(), h, ShapeOf(alloc), t, val);
        LevelOf(root.State(), h, ShapeOf(alloc), t, val, q);
        var n := root.node(q);
        if n.level == 0 {
          return;
        }
        if n.count != 1 || n.slot(0).Empty? {
          RootIsTallFor(root.State(), h, alloc, t, val);
          return;
        }
        ShrinkRoot(root, h, alloc, alloc, val);
        h := h - 1;
      }
    }
  }

  /** An IDR whose base is above max hands out an ID all the same, and one above max. */
  method MaxBelowBase(ptr: Option<nat>, base: nat, nextid: nat, max: nat) returns (r: Option<nat>)
    requires max < base < UINT && nextid < UINT
    ensures r == Some(Max(nextid, base)) && r.value > max
  {
    hide IsIdr;
    hide With;
    hide PutItem;
    var idr := new Idr(base);
    ghost var index;
    ghost var alloc := idr.alloc;
    r, index := idr.AllocU32(ptr, nextid, max);
    assert !alloc(idr.From(nextid)) && idr.From(nextid) <= idr.Limit(max);
  }

  lemma StepUp(alloc: Pred, l: nat, i: nat)
    ensures Below(alloc, l, Key(l, i)) ==> Below(alloc, l + 1, Key(l + 1, i))
  {
    if Below(alloc, l, Key(l, i)) { BelowStep(alloc, l, Key(l, i)); }
  }

  /** calculate_count for an IDR: how storing an item in a slot changes the count of its node. */
  function CalculateCount(free: bool, item: Entry, prior: Entry): int {
    if !free then 0
    else if prior.Empty? then 1
    else (if item.Empty? then 0 else 1) - (if prior.Empty? then 0 else 1)
  }

  lemma Filled(s: Tree, h: nat, alloc: Pred, t: Tags, v: Items, index: nat)
    requires Matches(s, h, PutShape(PathShape(alloc, index, 1), 0, index, true), t, v)
    ensures Matches(s, h, ShapeOf(With(alloc, index)), t, v)
  {
    hide Matches;
    hide Below;
    hide Key;
    var p := With(alloc, index);
    var w, w' := PutShape(PathShape(alloc, index, 1), 0, index, true), ShapeOf(p);
    KeyBase(index);
    forall l: nat, k: nat ensures w'(l, k) == w(l, k) { BelowAdd(alloc, p, l, k, index); }
    MatchesSame(s, h, w, t, v, w', t, v);
  }

  lemma Emptied(s: Tree, h: nat, alloc: Pred, t: Tags, v: Items, index: nat)
    requires alloc(index) && Matches(s, h, PutShape(ShapeOf(alloc), 0, index, false), t, v)
    ensures Matches(s, h, PathShape(Without(alloc, index), index, 1), t, v)
  {
    hide Matches;
    hide Below;
    hide Key;
    var p := Without(alloc, index);
    var w, w' := PutShape(ShapeOf(alloc), 0, index, false), PathShape(p, index, 1);
    KeyBase(index);
    BelowLeaf(p, index);
    forall l: nat, k: nat ensures w'(l, k) == w(l, k) { BelowAdd(p, alloc, l, k, index); }
    MatchesSame(s, h, w, t, v, w', t, v);
  }
}
