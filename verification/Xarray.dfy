/**
 The XArray (kernel/lib/xarray.c) that tracks free entries, with single-index operations as the IDA uses them:
 a map from indices to entries, and a set of indices without the FREE mark.
 */
module Xarray {
  import opened RadixState
  import opened RadixMoves
  import opened RadixKeys
  import opened RadixRoot
  import opened FreeTree
  import opened Options

  /** The memory is the tree of the entries v, minimal in height, and the FREE mark is clear exactly on `full`. */
  ghost predicate IsXa(s: Tree, full: Pred, v: Items) {
    Sparse(OccOf(v), full, v) &&
    match s.head
    case Empty => Bald(s, Empty) && (forall i: nat :: v(i).None?) && s.rootTag(0) && !s.rootTag(1) && !s.rootTag(2)
    case Item(x) =>
      && Bald(s, Item(x)) && v(0) == Some(x) && (forall i: nat | i != 0 :: v(i).None?)
      && s.rootTag(0) == !full(0) && !s.rootTag(1) && !s.rootTag(2)
    case Ptr(q) =>
      q.prefix == 0 && Matches(s, q.level, ShapeOf(OccOf(v)), FreeTags(full), v) && TallFor(OccOf(v), q.level)
  }

  /** xa_node of an operation state: not walked, outside the array, at the entry in the head (NULL), or at a slot. */
  datatype Pos = Restart | Bounds | Head | Slot(node: Place, offset: nat)

  /** struct xa_state */
  datatype Xas = Xas(index: nat, pos: Pos)

  /** max_index */
  function HeadMax(head: Entry): nat { if head.Ptr? then MaxIndex(head.place.level) else 0 }

  /** The state has been walked to its index: as far as there are nodes. */
  ghost predicate Walked(s: Tree, x: Xas) {
    match x.pos
    case Restart => false
    case Bounds => x.index > HeadMax(s.head)
    case Head => !s.head.Ptr? && x.index == 0
    case Slot(q, o) => s.head.Ptr? && OnPath(s, s.head.place.level, q, x.index) && o == Key(q.level, x.index) % 64
  }

  /** And there is a slot that can hold its entry. */
  ghost predicate AtEntry(s: Tree, x: Xas) { Walked(s, x) && (x.pos.Head? || (x.pos.Slot? && x.pos.node.level == 0)) }

  lemma EntryIsWalked(s: Tree, x: Xas)
    requires AtEntry(s, x)
    ensures Walked(s, x) && !x.pos.Restart?
  {
  }

  class XArray {
    const root: Root
    ghost var full: Pred           // the indices without the FREE mark
    ghost var val: Items           // the entries

    ghost predicate Valid()
      reads this, root
    {
      IsXa(root.State(), full, val)
    }

    constructor ()
      ensures Valid() && fresh(root) && forall i: nat :: val(i).None? && !full(i)
    {
      root := new Root(a => a == FREE);
      full, val := (_ => false), NoItems();
    }

    // -------------------------------------------------------------------------
    // Walking

    /** xas_load, from the head */
    method Load(index: nat) returns (x: Xas, r: Option<nat>)
      requires Valid()
      ensures x.index == index && Walked(root.State(), x) && r == val(index)
      ensures r.Some? ==> AtEntry(root.State(), x)
    {
      hide Matches;
      hide Below;
      hide Key;
      if !root.head.Ptr? {
        if index > 0 {
          return Xas(index, Bounds), None;
        }
        return Xas(0, Head), LeafItem(root.head);
      }
      var q := root.head.place;
      ghost var h, w, t := q.level, ShapeOf(OccOf(val)), FreeTags(full);
      PathStarts(root.State(), h, w, t, val, index);
      if index > MaxIndex(q.level) {
        NothingBelow(val, h + 1, index);
        return Xas(index, Bounds), None;
      }
      while true
        invariant OnPath(root.State(), h, q, index)
        decreases q.level
      {
        PathSlot(root.State(), h, w, t, val, q, index);
        KeyBase(index);
        var o := Key(q.level, index) % 64;
        var e := root.node(q).slot(o);
        if !e.Ptr? {
          if root.node(q).level > 0 { NothingBelow(val, q.level, index); }
          return Xas(index, Slot(q, o)), LeafItem(e);
        }
        q := e.place;
      }
    }

    /**
     xas_find_marked for the FREE mark: the least index that has it, from the index of the state on if that has not
     been walked, and from the following index on if it has (unless the search was over already).
     */
    method FindMarked(x: Xas, max: nat) returns (x': Xas, r: Option<nat>)
      requires Valid() && (x.pos.Restart? || AtEntry(root.State(), x))
      ensures var from := if x.pos.Restart? || x.index > max then x.index else x.index + 1;
              && x'.index >= from && AllTaken(full, from, x'.index)
              && (x'.pos.Restart? ==> x'.index > max && r.None?)
              && (!x'.pos.Restart? ==> x'.index <= max && !full(x'.index) && Walked(root.State(), x') && r == val(x'.index))
      ensures r.Some? ==> AtEntry(root.State(), x')
    {
      hide Matches;
      hide Below;
      hide Key;
      if x.pos.Head? {
        return Stopped(1, max), None;
      }
      if x.pos.Restart? {
        if x.index > HeadMax(root.head) {
          if root.head.Ptr? { BeyondIsUnused(root.State(), root.head.place.level, OccOf(val), FreeTags(full), val, x.index); }
          return Stopped(x.index, max), None;
        }
        if !root.head.Ptr? {
          if root.rootTag(FREE) {
            return Xas(0, Head), LeafItem(root.head);
          }
          return Stopped(1, max), None;
        }
        PathStarts(root.State(), root.head.place.level, ShapeOf(OccOf(val)), FreeTags(full), val, x.index);
        x', r := FindInTree(root.head.place, Key(root.head.place.level, x.index) % 64, x.index, false, max);
      } else {
        x', r := FindInTree(x.pos.node, x.pos.offset, x.index, true, max);
      }
    }

    /** The loop of xas_find_marked, from slot `offset` of a node, or from the one behind it. */
    method FindInTree(node: Place, offset: nat, start: nat, behind: bool, max: nat) returns (x: Xas, r: Option<nat>)
      requires Valid() && root.head.Ptr? && Cursor(root.State(), root.head.place.level, node, offset, start) && offset < 64
      requires behind ==> node.level == 0
      ensures var from := if behind && start <= max then start + 1 else start;
              && x.index >= from && AllTaken(full, from, x.index)
              && (x.pos.Restart? ==> x.index > max && r.None?)
              && (!x.pos.Restart? ==> x.index <= max && !full(x.index) && Walked(root.State(), x) && r == val(x.index))
      ensures r.Some? ==> AtEntry(root.State(), x)
    {
      hide Matches;
      hide Below;
      hide Key;
      hide Low;
      hide Cursor;
      ghost var h, w, t := root.head.place.level, ShapeOf(OccOf(val)), FreeTags(full);
      ghost var from := if behind && start <= max then start + 1 else start;
      var q, o: nat, index: nat, advance := node, offset, start, behind;
      CursorLevel(root.State(), h, q, o, index);
      while index <= max
        invariant Cursor(root.State(), h, q, o, index) && q.level <= h && o <= 64
        invariant if advance then behind && q.level == 0 && index == start && o < 64 else from <= index && AllTaken(full, from, index)
        decreases max + 1 - index, if o == 64 then 2 * h + 1 - q.level else q.level
      {
        if o == 64 {
          CursorUp(root.State(), h, w, t, val, q, index);
          o := root.node(q).offset + 1;
          if root.node(q).parent.None? {
            BeyondIsUnused(root.State(), h, OccOf(val), t, val, index);
            return Stopped(index, max), None;
          }
          q := root.node(q).parent.value;
          continue;
        }
        var lo := if advance then o + 1 else o;
        var next := FindNextBit(root, q, lo);
        if next > o {
          CursorAlong(root.State(), h, w, full, val, q, o, index, lo, next, from);
          index := NextIndex(index, root.node(q).level, next);
          advance := false;
          if index - 1 >= max {
            return Xas(index, Restart), None;
          }
          o := next;
          if next == 64 {
            continue;
          }
        }
        CursorDown(root.State(), h, w, full, val, q, o, index);
        var e := root.node(q).slot(o);
        if !e.Ptr? {
          return Xas(index, Slot(q, o)), LeafItem(e);
        }
        q := e.place;
        o := Key(q.level, index) % 64;
      }
      return Xas(index, Restart), None;
    }

    // -------------------------------------------------------------------------
    // Storing

    /** A root node at level h that is not too high, also for the index that is to come. */
    ghost predicate High(h: nat, index: nat)
      reads this, root
    {
      && root.head == Ptr(Place(h, 0)) && Matches(root.State(), h, ShapeOf(OccOf(val)), FreeTags(full), val)
      && (TallFor(OccOf(val), h) || Key(h, index) != 0)
    }

    /** The leaf q has a slot for the index. */
    ghost predicate Ready(h: nat, q: Place, index: nat)
      reads this, root
    {
      && root.head == Ptr(Place(h, 0)) && q.level == 0 && OnPath(root.State(), h, q, index)
      && Matches(root.State(), h, PathShape(OccOf(val), index, 1), FreeTags(full), val)
      && Sparse(OccOf(val), full, val) && (TallFor(OccOf(val), h) || Key(h, index) != 0)
    }

    /** xas_expand for an array that has an entry */
    method Expand(index: nat)
      requires Valid() && !root.head.Empty?
      modifies root
      ensures index <= HeadMax(root.head)
      ensures root.head.Ptr? ==> High(root.head.place.level, index)
      ensures !root.head.Ptr? ==> root.State() == old(root.State())
    {
      hide Matches;
      hide Below;
      hide Key;
      while index > HeadMax(root.head)
        invariant !root.head.Ptr? ==> root.State() == old(root.State())
        invariant root.head.Ptr? ==> High(root.head.place.level, index)
        decreases index - HeadMax(root.head)
      {
        if root.head.Ptr? {
          var h := root.head.place.level;
          InTree(h, index);
          MaxIndexGrows(h);
          AddRoot(root, h, OccOf(val), full, val);
        } else {
          KeyBase(index);
          FirstNode();
        }
      }
    }

    /** The entry in the head moves into a first node. */
    method FirstNode()
      requires Valid() && root.head.Item?
      modifies root
      ensures root.head == Ptr(Place(0, 0)) && Matches(root.State(), 0, ShapeOf(OccOf(val)), FreeTags(full), val)
    {
      hide Matches;
      hide Below;
      ghost var x := root.head.item;
      var tags, rootTag := GrowTags(root.rootTag(FREE)), PutRoot(root.rootTag, FREE, true);
      PotFree(root.State(), full, val);
      PottedKeeps(root.State(), x, FreeTags(full), tags, rootTag);
      PotShape(Potted(root.State(), tags, rootTag), val, FreeSets(full), x);
      root.Pot(tags, rootTag);
    }

    /** xas_create: a slot for the index, the head for index 0 if it is free or holds an entry. */
    method Create(x: Xas) returns (x': Xas)
      requires Valid() && Walked(root.State(), x)
      modifies root
      ensures x'.index == x.index && (x'.pos.Head? || x'.pos.Slot?)
      ensures x'.pos.Head? ==> x.index == 0 && !root.head.Ptr? && root.State() == old(root.State())
      ensures x'.pos.Slot? ==> root.head.Ptr? && Ready(root.head.place.level, x'.pos.node, x.index)
      ensures x'.pos.Slot? ==> x'.pos.offset == Key(0, x.index) % 64
    {
      hide Matches;
      hide Below;
      hide Key;
      if x.pos.Slot? {
        x' := CreateBelow(x.pos.node, x.index);
      } else if root.head.Empty? {
        if x.index == 0 {
          return Xas(0, Head);
        }
        x' := CreateFirst(x.index);
      } else {
        Expand(x.index);
        if !root.head.Ptr? {
          return Xas(0, Head);
        }
        PathStarts(root.State(), root.head.place.level, ShapeOf(OccOf(val)), FreeTags(full), val, x.index);
        x' := CreateBelow(root.head.place, x.index);
      }
    }

    /** The loop of xas_create, from a node on the path to the index. */
    method CreateBelow(q: Place, index: nat) returns (x: Xas)
      requires root.head.Ptr? && High(root.head.place.level, index) && OnPath(root.State(), root.head.place.level, q, index)
      requires Sparse(OccOf(val), full, val)
      modifies root`node, root`live
      ensures x.index == index && x.pos.Slot? && x.pos.offset == Key(0, index) % 64
      ensures Ready(root.head.place.level, x.pos.node, index)
    {
      hide Matches;
      hide Below;
      hide Key;
      ghost var h := root.head.place.level;
      PathJoins(root.State(), h, OccOf(val), FreeTags(full), val, index, q);
      var leaf := CreatePath(root, q, index, h, OccOf(val), full, val);
      return Xas(index, Slot(leaf, Key(0, index) % 64));
    }

    /** xas_create in an empty array */
    method CreateFirst(index: nat) returns (x: Xas)
      requires Valid() && root.head.Empty? && index > 0
      modifies root
      ensures x.index == index && x.pos.Slot? && x.pos.offset == Key(0, index) % 64
      ensures root.head.Ptr? && Ready(root.head.place.level, x.pos.node, index)
    {
      hide Matches;
      hide Below;
      hide Key;
      var level := 0;
      KeyBase(index);
      while index > MaxIndex(level)
        invariant Key(level, index) != 0
        modifies {}
        decreases index - MaxIndex(level)
      {
        MaxIndexGrows(level);
        InTree(level, index);
        level := level + 1;
      }
      PlantRoot(root, level, index, OccOf(val), full, val);
      PathStarts(root.State(), level, PathShape(OccOf(val), index, level + 1), FreeTags(full), val, index);
      var leaf := CreatePath(root, root.head.place, index, level, OccOf(val), full, val);
      return Xas(index, Slot(leaf, Key(0, index) % 64));
    }

    /** xas_store of an entry: the marks stay as they are. */
    method Store(x: Xas, entry: nat) returns (x': Xas)
      requires Valid() && Walked(root.State(), x)
      modifies this`val, root
      ensures Valid() && x'.index == x.index && AtEntry(root.State(), x')
      ensures val == PutItem(old(val), x.index, Some(entry))
    {
      hide Matches;
      hide Below;
      hide Key;
      x' := Create(x);
      if x'.pos.Head? {
        NoFullIfEmpty(root.State(), full, val);
        root.head := Item(entry);
        val := PutItem(val, x.index, Some(entry));
      } else {
        StoreLeaf(x'.pos.node, x.index, entry, root.head.place.level);
      }
    }

    /** The slot gets the entry, and the node its count. */
    method StoreLeaf(q: Place, index: nat, entry: nat, ghost h: nat)
      requires Ready(h, q, index)
      modifies this`val, root`node
      ensures Valid() && val == PutItem(old(val), index, Some(entry)) && OnPath(root.State(), h, q, index)
    {
      hide Matches;
      hide Below;
      hide Key;
      ghost var w, t := PathShape(OccOf(val), index, 1), FreeTags(full);
      PathSlot(root.State(), h, w, t, val, q, index);
      KeyBase(index);
      UnusedLeaf(val, index);
      var o, n := Key(0, index) % 64, root.node(q);
      var count := n.count + if n.slot(o).Empty? then 1 else 0;
      ItemKeeps(root.State(), h, w, t, val, q, o, Some(entry), true);
      Completed(WithItem(root.State(), q, o, Some(entry), count), h, val, FreeSets(full), index, entry);
      TallPut(val, h, index, entry);
      root.node := PutNode(root.node, q, n.(slot := PutSlot(n.slot, o, Item(entry)), count := count));
      val := PutItem(val, index, Some(entry));
    }

    // -------------------------------------------------------------------------
    // Marks

    /** xas_clear_mark for the FREE mark */
    method ClearMark(x: Xas)
      requires Valid() && AtEntry(root.State(), x) && val(x.index).Some?
      modifies this`full, root`node, root`rootTag
      ensures Valid() && full == With(old(full), x.index) && root.head == old(root.head) && root.live == old(root.live)
    {
      hide Matches;
      hide Below;
      hide Key;
      if x.pos.Head? {
        root.rootTag := PutRoot(root.rootTag, FREE, false);
      } else {
        ghost var h, w, g := root.head.place.level, ShapeOf(OccOf(val)), FreeSets(full);
        root.ClearTag(x.pos.node, FREE, x.index, h, w, g, val);
        SameTags(root.State(), h, w, val, Untagged(g, 0, x.index), FreeSets(With(full, x.index)));
      }
      full := With(full, x.index);
    }

    /** xas_set_mark for the FREE mark */
    method SetMark(x: Xas)
      requires Valid() && AtEntry(root.State(), x)
      modifies this`full, root`node, root`rootTag
      ensures Valid() && full == Without(old(full), x.index) && root.head == old(root.head) && root.live == old(root.live)
    {
      hide Matches;
      hide Below;
      hide Key;
      if x.pos.Head? {
        root.rootTag := PutRoot(root.rootTag, FREE, true);
      } else {
        ghost var h, w, g := root.head.place.level, ShapeOf(OccOf(val)), FreeSets(full);
        root.RaiseUp(x.pos.node, x.index, h, w, g, val);
        SameTags(root.State(), h, w, val, Tagged(g, 0, x.index), FreeSets(Without(full, x.index)));
      }
      full := Without(full, x.index);
    }

    /** xas_init_marks: FREE is set, the others, which are not in use, are cleared. */
    method InitMarks(x: Xas)
      requires Valid() && AtEntry(root.State(), x)
      modifies this`full, root`node, root`rootTag
      ensures Valid() && full == Without(old(full), x.index) && root.head == old(root.head) && root.live == old(root.live)
    {
      hide Matches;
      hide Below;
      hide Key;
      SetMark(x);
      var mark := 1;
      while mark < MAX_TAGS
        invariant 1 <= mark <= MAX_TAGS && Valid() && root.head == old(root.head) && root.live == old(root.live)
        invariant full == Without(old(full), x.index)
      {
        if x.pos.Head? {
          root.rootTag := PutRoot(root.rootTag, mark, false);
        } else {
          ghost var h, w, g := root.head.place.level, ShapeOf(OccOf(val)), FreeSets(full);
          root.ClearTag(x.pos.node, mark, x.index, h, w, g, val);
          SameTags(root.State(), h, w, val, Untagged(g, mark, x.index), g);
        }
        mark := mark + 1;
      }
    }

    // -------------------------------------------------------------------------
    // Erasing

    /** xas_store of NULL over an entry */
    method Erase(x: Xas)
      requires Valid() && AtEntry(root.State(), x) && val(x.index).Some?
      modifies this`val, this`full, root
      ensures Valid() && val == PutItem(old(val), x.index, None) && full == Without(old(full), x.index)
    {
      hide Matches;
      hide Below;
      hide Key;
      InitMarks(x);
      if x.pos.Head? {
        root.head := Empty;
        val := PutItem(val, x.index, None);
      } else {
        ClearSlot(x.pos.node, x.index, root.head.place.level);
        DeleteNode(x.pos.node, x.index, root.head.place.level);
      }
    }

    method ClearSlot(q: Place, index: nat, ghost h: nat)
      requires Valid() && root.head == Ptr(Place(h, 0)) && q.level == 0 && OnPath(root.State(), h, q, index)
      requires val(index).Some? && !full(index)
      modifies this`val, root`node
      ensures val == PutItem(old(val), index, None) && Ready(h, q, index)
    {
      hide Matches;
      hide Below;
      hide Key;
      ghost var w, t := ShapeOf(OccOf(val)), FreeTags(full);
      PathSlot(root.State(), h, w, t, val, q, index);
      KeyBase(index);
      SlotInUse(val, 0, index);
      var o, n := Key(0, index) % 64, root.node(q);
      ItemKeeps(root.State(), h, w, t, val, q, o, None, false);
      SlotGone(WithItem(root.State(), q, o, None, n.count - 1), h, val, FreeSets(full), index);
      TallErase(val, h, index);
      root.node := PutNode(root.node, q, n.(slot := PutSlot(n.slot, o, Empty), count := n.count - 1));
      val := PutItem(val, index, None);
    }

    /** xas_delete_node */
    method DeleteNode(leaf: Place, index: nat, ghost h: nat)
      requires Ready(h, leaf, index)
      modifies root
      ensures Valid()
    {
      hide Matches;
      hide Below;
      hide Key;
      var q := root.PruneUp(leaf, index, h, OccOf(val), FreeTags(full), val);
      if q.None? {
        FellRoot(root, h, index, OccOf(val), full, val);
      } else if Ptr(q.value) == root.head {
        Shrink(h);
      } else {
        TallStaysFor(OccOf(val), h, index, q.value.level);
      }
    }

    /** xas_shrink, down to the head if only the entry of index 0 is left */
    method Shrink(ghost top: nat)
      requires root.head == Ptr(Place(top, 0)) && Matches(root.State(), top, ShapeOf(OccOf(val)), FreeTags(full), val)
      requires Sparse(OccOf(val), full, val)
      modifies root
      ensures Valid()
    {
      hide Matches;
      hide Below;
      hide Key;
      ghost var h, w, t := top, ShapeOf(OccOf(val)), FreeTags(full);
      while true
        invariant root.head == Ptr(Place(h, 0)) && Matches(root.State(), h, w, t, val)
        decreases h
      {
        var n := root.node(root.head.place);
        FirstSlot(root.State(), h, t, val);
        if n.count != 1 || n.slot(0).Empty? {
          RootIsTallFor(root.State(), h, OccOf(val), t, val);
          return;
        }
        if !n.slot(0).Ptr? {
          ToHead();
          return;
        }
        ShrinkRoot(root, h, OccOf(val), full, val);
        h := h - 1;
      }
    }

    /** The last turn: the only entry, of index 0, moves into the head. */
    method ToHead()
      requires root.head == Ptr(Place(0, 0)) && Matches(root.State(), 0, ShapeOf(OccOf(val)), FreeTags(full), val)
      requires Sparse(OccOf(val), full, val) && root.node(Place(0, 0)).count == 1 && root.node(Place(0, 0)).slot(0).Item?
      modifies root
      ensures Valid()
    {
      hide Matches;
      hide Below;
      var n := root.node(root.head.place);
      var rootTag := RootAfterShrink(root.rootTag, n.tag(FREE, 0));
      ShrinkFree(root.State(), 0, ShapeOf(OccOf(val)), full, val);
      FelledIsBald(root.State(), 0, ShapeOf(OccOf(val)), FreeTags(full), val, n.slot(0), rootTag);
      LastEntry(root.State(), full, val);
      root.Fell(0, n.slot(0), rootTag);
    }
  }

  /** The first slot of the root shows whether it is in use. */
  lemma FirstSlot(s: Tree, h: nat, t: Tags, v: Items)
    requires Matches(s, h, ShapeOf(OccOf(v)), t, v)
    ensures s.node(Place(h, 0)).slot(0).Empty? <==> !Used(ShapeOf(OccOf(v)), h, 0, 0)
    ensures (s.node(Place(h, 0)).slot(0).Ptr? ==> h > 0) && (s.node(Place(h, 0)).slot(0).Item? ==> h == 0)
  {
    hide Matches;
    hide Below;
    RootFacts(s, h, ShapeOf(OccOf(v)), t, v);
    BelowLeaf(OccOf(v), 0);
  }

  lemma NoFullIfEmpty(s: Tree, full: Pred, v: Items)
    requires IsXa(s, full, v)
    ensures s.head.Empty? ==> !full(0)
  {
    hide Matches;
  }

  lemma PotFree(s: Tree, full: Pred, v: Items)
    requires IsXa(s, full, v) && s.head.Item?
    ensures TagsAre(FreeTags(full), 0, 0, GrowTags(s.rootTag(0)))
    ensures forall a: nat | a < MAX_TAGS :: PutRoot(s.rootTag, 0, true)(a) == FreeTags(full)(a, 1, 0)
  {
    hide Matches;
    hide Below;
    var t := FreeTags(full);
    forall a: nat, o: nat | a < MAX_TAGS && o < 64 ensures GrowTags(s.rootTag(0))(a, o) == t(a, 0, 64 * 0 + o) {
      LeafTag(FreeSets(full), a, o);
    }
    BelowHit(Free(full), 1, 1);
    forall a: nat | a < MAX_TAGS ensures PutRoot(s.rootTag, 0, true)(a) == t(a, 1, 0) {
      if a != 0 { OtherTagsClear(full, a, 1, 0); }
    }
  }

  lemma TallPut(v: Items, h: nat, index: nat, entry: nat)
    requires TallFor(OccOf(v), h) || Key(h, index) != 0
    ensures TallFor(OccOf(PutItem(v, index, Some(entry))), h)
  {
    hide Key;
    var p := OccOf(PutItem(v, index, Some(entry)));
    if TallFor(OccOf(v), h) {
      var i: nat :| OccOf(v)(i) && Key(h, i) != 0;
      assert p(i);
    } else {
      assert p(index);
    }
  }

  lemma TallErase(v: Items, h: nat, index: nat)
    requires TallFor(OccOf(v), h)
    ensures TallFor(OccOf(PutItem(v, index, None)), h) || Key(h, index) != 0
  {
    hide Key;
    var i: nat :| OccOf(v)(i) && Key(h, i) != 0;
    assert i != index ==> OccOf(PutItem(v, index, None))(i);
  }

  lemma LastEntry(s: Tree, full: Pred, v: Items)
    requires Matches(s, 0, ShapeOf(OccOf(v)), FreeTags(full), v)
    requires s.node(Place(0, 0)).count == 1 && s.node(Place(0, 0)).slot(0).Item?
    ensures v(0) == Some(s.node(Place(0, 0)).slot(0).item) && (forall i: nat | i != 0 :: v(i).None?)
    ensures FreeTags(full)(0, 0, 0) == !full(0) && !FreeTags(full)(1, 0, 0) && !FreeTags(full)(2, 0, 0)
  {
    hide Below;
    hide NodeOk;
    var w := ShapeOf(OccOf(v));
    RootFacts(s, 0, w, FreeTags(full), v);
    BelowLeaf(OccOf(v), 0);
    OnlyFirst(w, 0);
    forall i: nat | i != 0 ensures v(i).None? { BelowLeaf(OccOf(v), i); assert !w(0, i); }
    forall a: nat ensures FreeTags(full)(a, 0, 0) == FreeSets(full)(a, 0) { LeafTag(FreeSets(full), a, 0); }
  }

  /** Out of the array, or past the end of the search. */
  function Stopped(index: nat, max: nat): Xas { Xas(index, if index > max then Restart else Bounds) }

  /** A search is at slot o of node q for index i; behind the last slot, i is the first index after the node. */
  ghost predicate Cursor(s: Tree, h: nat, q: Place, o: nat, i: nat) {
    && s.live(q) && q.level <= h && o <= 64
    && if o < 64 then q.prefix == Key(q.level + 1, i) && o == Key(q.level, i) % 64 else i == Low(q.level, 64 * q.prefix + 64)
  }

  lemma CursorLevel(s: Tree, h: nat, q: Place, o: nat, i: nat)
    requires Cursor(s, h, q, o, i)
    ensures q.level <= h && o <= 64
  {
  }

  lemma CursorAt(s: Tree, h: nat, q: Place, o: nat)
    requires s.live(q) && q.level <= h && o <= 64
    ensures Cursor(s, h, q, o, Low(q.level, 64 * q.prefix + o))
  {
    hide Key;
    hide Low;
    var i := Low(q.level, 64 * q.prefix + o);
    LowKey(q.level, 64 * q.prefix + o);
    KeyUp(q.level, i);
  }

  /** From behind the last slot up to the next slot of the parent, or out of the tree. */
  lemma CursorUp(s: Tree, h: nat, w: Shape, t: Tags, v: Items, q: Place, i: nat)
    requires Matches(s, h, w, t, v) && Cursor(s, h, q, 64, i)
    ensures s.node(q).parent.None? ==> i > MaxIndex(h)
    ensures s.node(q).parent.Some? ==>
              Cursor(s, h, s.node(q).parent.value, s.node(q).offset + 1, i) && s.node(q).offset < 64 && s.node(q).parent.value.level == q.level + 1 <= h
  {
    hide Matches;
    hide Key;
    hide Low;
    LiveNode(s, h, w, t, v, q);
    LowUp(q.level, q.prefix);
    if s.node(q).parent.None? {
      PastRoot(s, h, w, t, v, q, i);
    } else {
      ParentLive(s, h, w, t, v, q);
      CursorAt(s, h, s.node(q).parent.value, s.node(q).offset + 1);
    }
  }

  /** Along a node to a later slot, past slots without the mark. */
  lemma CursorAlong(s: Tree, h: nat, w: Shape, full: Pred, v: Items, q: Place, o: nat, i: nat, lo: nat, next: nat, from: nat)
    requires Matches(s, h, w, FreeTags(full), v) && Cursor(s, h, q, o, i) && o < next <= 64
    requires if lo == o then AllTaken(full, from, i) else lo == o + 1 && q.level == 0 && from == i + 1
    requires forall x: nat | lo <= x < next :: !s.node(q).tag(FREE, x)
    ensures s.node(q).level == q.level && i < NextIndex(i, q.level, next) && Cursor(s, h, q, next, NextIndex(i, q.level, next))
    ensures AllTaken(full, from, NextIndex(i, q.level, next))
  {
    hide Matches;
    hide Key;
    LevelOf(s, h, w, FreeTags(full), v, q);
    Skipped(s, h, w, full, v, q, lo, next);
    KeyUp(q.level, i);
    InSlot(q.level, i);
    NextSlot(q, i, next);
    CursorAt(s, h, q, next);
  }

  /** At a slot with the mark: its entry is the one of the index, or leads on to it. */
  lemma CursorDown(s: Tree, h: nat, w: Shape, full: Pred, v: Items, q: Place, o: nat, i: nat)
    requires Matches(s, h, w, FreeTags(full), v) && w == ShapeOf(OccOf(v)) && Sparse(OccOf(v), full, v)
    requires Cursor(s, h, q, o, i) && o < 64 && s.node(q).tag(FREE, o)
    ensures var e := s.node(q).slot(o);
            && (e.Ptr? ==> e.place.level < q.level && Cursor(s, h, e.place, Key(e.place.level, i) % 64, i))
            && (e.Item? ==> q.level == 0)
            && (!e.Ptr? ==> !full(i) && LeafItem(e) == v(i) && OnPath(s, h, q, i) && o == Key(q.level, i) % 64)
  {
    hide Matches;
    hide Key;
    hide Below;
    PathSlot(s, h, w, FreeTags(full), v, q, i);
    KeyBase(i);
    LeafTag(FreeSets(full), 0, i);
    if q.level > 0 && !s.node(q).slot(o).Ptr? { NothingBelow(v, q.level, i); }
  }
}
