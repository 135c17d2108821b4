/** The radix tree of kernel/lib/radix-tree.c (not an IDR), against a plain map with three sets of tagged indices. */
module Radix {
  import opened RadixState
  import opened RadixMoves
  import opened RadixKeys
  import opened RadixRoot
  import opened Options

  /** Only indices with an item are tagged. */
  ghost predicate TagsOnItems(g: TagSets, v: Items) { forall a: nat, i: nat | g(a, i) :: a < MAX_TAGS && v(i).Some? }

  /** Some index needs all the digits of a tree with a root at level h. */
  ghost predicate Tall(v: Items, h: nat) { exists i: nat :: v(i).Some? && Key(h, i) != 0 }

  /**
   The memory is the tree of the map v and the tag sets g: minimal in height, without empty nodes, with exact counts,
   and with the bit of every slot telling whether some index below it is tagged.
   */
  ghost predicate IsTreeOf(s: Tree, v: Items, g: TagSets) {
    TagsOnItems(g, v) &&
    match s.head
    case Empty => Bald(s, Empty) && (forall i: nat :: v(i).None?) && (forall a | 0 <= a < MAX_TAGS :: !s.rootTag(a))
    case Item(x) =>
      && Bald(s, Item(x)) && v(0) == Some(x) && (forall i: nat | i != 0 :: v(i).None?)
      && (forall a | 0 <= a < MAX_TAGS :: s.rootTag(a) == g(a, 0))
    case Ptr(q) => q.prefix == 0 && Matches(s, q.level, ShapeOf(OccOf(v)), TagsOf(g), v) && Tall(v, q.level)
  }

  /** Beyond the tree there is nothing. */
  lemma NothingBeyond(s: Tree, h: nat, t: Tags, v: Items, i: nat)
    requires Matches(s, h, ShapeOf(OccOf(v)), t, v) && i > MaxIndex(h)
    ensures v(i).None?
  {
    hide NodeOk;
    hide Below;
    PathStarts(s, h, ShapeOf(OccOf(v)), t, v, i);
    if v(i).Some? { BelowHit(OccOf(v), h + 1, i); }
  }

  lemma NoTagBelow(g: TagSets, a: nat, l: nat, i: nat)
    requires !TagsOf(g)(a, l, Key(l, i))
    ensures !g(a, i)
  {
    if g(a, i) { BelowHit(TagPred(g, a), l, i); }
  }

  class RadixTree {
    const root: Root
    ghost var val: Items
    ghost var tagged: TagSets

    ghost function State(): Tree
      reads root
    {
      root.State()
    }

    ghost predicate Valid()
      reads this, root
    {
      IsTreeOf(State(), val, tagged)
    }

    constructor ()
      ensures Valid() && fresh(root) && (forall i: nat :: val(i).None?) && forall a: nat, i: nat :: !tagged(a, i)
    {
      root := new Root(_ => false);
      val, tagged := NoItems(), (a, i) => false;
    }

    /** __radix_tree_lookup */
    method Lookup(index: nat) returns (r: Option<nat>)
      requires Valid()
      ensures r == val(index)
    {
      hide Matches;
      hide Below;
      hide Key;
      if !root.head.Ptr? {
        return if index > 0 || root.head.Empty? then None else Some(root.head.item);
      }
      var q, e, stop := root.Walk(index, root.head.place.level, ShapeOf(OccOf(val)), TagsOf(tagged), val);
      if q.None? { NothingBelow(val, stop, index); }
      return LeafItem(e);
    }

    /** radix_tree_tag_get */
    method TagGet(index: nat, tag: nat) returns (r: bool)
      requires Valid() && tag < MAX_TAGS
      ensures r == tagged(tag, index)
    {
      hide Matches;
      hide Below;
      hide Key;
      if !root.rootTag(tag) {
        NoRootTag(State(), val, tagged, tag, index);
        return false;
      }
      if !root.head.Ptr? {
        return index == 0;
      }
      var q := root.head.place;
      ghost var h, w, t := q.level, ShapeOf(OccOf(val)), TagsOf(tagged);
      if index > MaxIndex(q.level) {
        NothingBeyond(State(), h, t, val, index);
        return false;
      }
      PathStarts(State(), h, w, t, val, index);
      while true
        invariant OnPath(State(), h, q, index)
        decreases q.level
      {
        PathSlot(State(), h, w, t, val, q, index);
        var o := Key(q.level, index) % 64;
        if !root.node(q).tag(tag, o) {
          NoTagBelow(tagged, tag, q.level, index);
          return false;
        }
        TagLeads(val, tagged, tag, q.level, Key(q.level, index));
        KeyBase(index);
        if !root.node(q).slot(o).Ptr? {
          return true;
        }
        q := root.node(q).slot(o).place;
      }
    }

    // -------------------------------------------------------------------------
    // Insertion

    /** radix_tree_extend: the level of a root that covers the index, and the nodes up to it above the present root. */
    method Extend(index: nat) returns (level: nat)
      requires Valid() && index > (if root.head.Ptr? then MaxIndex(root.head.place.level) else 0)
      modifies root
      ensures index <= MaxIndex(level) && (level == 0 || index > MaxIndex(level - 1))
      ensures if old(root.head).Empty? then State() == old(State())
              else root.head == Ptr(Place(level, 0)) && Matches(State(), level, ShapeOf(OccOf(val)), TagsOf(tagged), val)
    {
      hide Matches;
      hide Below;
      hide Key;
      var shift := if root.head.Ptr? then root.head.place.level + 1 else 0;
      var max := shift;
      while index > MaxIndex(max)
        invariant shift <= max && (max == 0 || index > MaxIndex(max - 1))
        modifies {}
        decreases index - MaxIndex(max)
      {
        MaxIndexGrows(max);
        max := max + 1;
      }
      level := max;
      if root.head.Empty? {
        return;
      }
      if shift == 0 {
        FirstNode();
        shift := 1;
      }
      while shift <= max
        invariant shift <= max + 1 && root.head == Ptr(Place(shift - 1, 0)) && shift > 0
        invariant Matches(State(), shift - 1, ShapeOf(OccOf(val)), TagsOf(tagged), val)
      {
        AddRoot(shift - 1);
        shift := shift + 1;
      }
    }

    /** The first turn, when the root holds an item. */
    method FirstNode()
      requires Valid() && root.head.Item?
      modifies root
      ensures root.head == Ptr(Place(0, 0)) && Matches(State(), 0, ShapeOf(OccOf(val)), TagsOf(tagged), val)
    {
      hide Matches;
      ghost var x := root.head.item;
      var tags := FirstTags(root.rootTag);
      PotTags(State(), val, tagged, x);
      PottedKeeps(State(), x, TagsOf(tagged), tags, root.rootTag);
      PotShape(Potted(State(), tags, root.rootTag), val, tagged, x);
      root.Pot(tags, root.rootTag);
    }

    /** Any later turn. */
    method AddRoot(h: nat)
      requires root.head == Ptr(Place(h, 0)) && TagsOnItems(tagged, val)
      requires Matches(State(), h, ShapeOf(OccOf(val)), TagsOf(tagged), val)
      modifies root
      ensures root.head == Ptr(Place(h + 1, 0)) && Matches(State(), h + 1, ShapeOf(OccOf(val)), TagsOf(tagged), val)
    {
      hide Matches;
      hide Below;
      GrowTags(State(), h, val, tagged);
      root.GrowRoot(h, FirstTags(root.rootTag), root.rootTag, ShapeOf(OccOf(val)), TagsOf(tagged), val);
    }

    /** Make sure that the tree has a root node high enough for the index. */
    method PrepareRoot(index: nat) returns (ghost h: nat)
      requires Valid() && !(index == 0 && !root.head.Ptr?)
      modifies root
      ensures root.head == Ptr(Place(h, 0)) && index <= MaxIndex(h)
      ensures Matches(State(), h, PathShape(OccOf(val), index, h + 1), TagsOf(tagged), val)
      ensures val(index).Some? ==> State() == old(State())
      ensures (old(root.head).Ptr? && old(root.head).place.level == h) || (h == 0 && index > 0) || (h > 0 && index > MaxIndex(h - 1))
    {
      hide Matches;
      hide Below;
      hide Key;
      if root.head.Ptr? && index <= MaxIndex(root.head.place.level) {
        h := root.head.place.level;
      } else {
        InsideTree(State(), val, tagged, index);
        var level := Extend(index);
        h := level;
        if root.head.Empty? {
          PlantRoot(level, index);
          return;
        }
      }
      TopShape(State(), h, OccOf(val), TagsOf(tagged), val, index);
    }

    /** The loop of __radix_tree_create adds the root node of an empty tree like any other. */
    method PlantRoot(h: nat, index: nat)
      requires Valid() && root.head.Empty? && index <= MaxIndex(h)
      modifies root
      ensures root.head == Ptr(Place(h, 0)) && Matches(State(), h, PathShape(OccOf(val), index, h + 1), TagsOf(tagged), val)
    {
      hide Matches;
      EmptyTags(val, tagged, h);
      PlantedKeeps(State(), h, TagsOf(tagged), NoTags());
      PlantShape(Planted(State(), h, NoTags()), h, val, tagged, index);
      root.Plant(h, NoTags());
    }

    /** The loop of __radix_tree_create: the leaf for the index, and the nodes on the way to it. */
    method CreatePath(index: nat, ghost h: nat) returns (q: Place)
      requires root.head == Ptr(Place(h, 0)) && index <= MaxIndex(h) && TagsOnItems(tagged, val)
      requires Matches(State(), h, PathShape(OccOf(val), index, h + 1), TagsOf(tagged), val)
      modifies root`node, root`live
      ensures Matches(State(), h, PathShape(OccOf(val), index, 1), TagsOf(tagged), val)
      ensures q.level == 0 && OnPath(State(), h, q, index)
      ensures val(index).Some? ==> State() == old(State())
    {
      hide Matches;
      hide Below;
      hide Key;
      hide Bare;
      forall l: nat ensures BareAt(OccOf(val), TagsOf(tagged), val, index, l, NoTags()) {
        if l > 0 && !PathShape(OccOf(val), index, l + 1)(l, Key(l, index)) { BareBelow(val, tagged, index, l); }
      }
      PathStarts(State(), h, PathShape(OccOf(val), index, h + 1), TagsOf(tagged), val, index);
      q := root.DownToLeaf(root.head.place, index, NoTags(), h, OccOf(val), TagsOf(tagged), val);
    }

    /** radix_tree_insert: false is -EEXIST */
    method Insert(index: nat, item: nat) returns (ok: bool)
      requires Valid()
      modifies this, root
      ensures Valid() && (ok <==> old(val)(index).None?)
      ensures ok ==> (forall i: nat :: val(i) == if i == index then Some(item) else old(val)(i)) && tagged == old(tagged)
      ensures !ok ==> State() == old(State()) && val == old(val) && tagged == old(tagged)
    {
      hide Matches;
      hide Below;
      hide Key;
      if index == 0 && !root.head.Ptr? {
        if root.head.Item? {
          return false;
        }
        root.head := Item(item);
        val := PutItem(val, 0, Some(item));
        return true;
      }
      ghost var h := PrepareRoot(index);
      var q := CreatePath(index, h);
      ok := InsertEntry(index, item, q, h);
      if ok { TallNow(old(State()), old(val), old(tagged), index, item, h); }
    }

    /** insert_entries */
    method InsertEntry(index: nat, item: nat, q: Place, ghost h: nat) returns (ok: bool)
      requires root.head == Ptr(Place(h, 0)) && TagsOnItems(tagged, val) && OnPath(State(), h, q, index) && q.level == 0
      requires Matches(State(), h, PathShape(OccOf(val), index, 1), TagsOf(tagged), val)
      modifies root`node, this`val
      ensures ok <==> old(val)(index).None?
      ensures ok ==> val == PutItem(old(val), index, Some(item)) && Matches(State(), h, ShapeOf(OccOf(val)), TagsOf(tagged), val)
      ensures !ok ==> State() == old(State()) && val == old(val)
    {
      hide Matches;
      hide Below;
      hide Key;
      var o := Key(0, index) % 64;
      ghost var w := PathShape(OccOf(val), index, 1);
      PathSlot(State(), h, w, TagsOf(tagged), val, q, index);
      KeyBase(index);
      if root.node(q).slot(o) != Empty {
        return false;
      }
      UnusedLeaf(val, index);
      ItemKeeps(State(), h, w, TagsOf(tagged), val, q, o, Some(item), true);
      Completed(WithItem(State(), q, o, Some(item), root.node(q).count + 1), h, val, tagged, index, item);
      root.node := PutNode(root.node, q, root.node(q).(slot := PutSlot(root.node(q).slot, o, Item(item)), count := root.node(q).count + 1));
      val := PutItem(val, index, Some(item));
      return true;
    }

    // -------------------------------------------------------------------------
    // Tags

    /** node_tag_clear, starting at the leaf of the index */
    method NodeTagClear(leaf: Place, tag: nat, index: nat, ghost h: nat)
      requires tag < MAX_TAGS && leaf.level == 0 && OnPath(State(), h, leaf, index)
      requires Matches(State(), h, ShapeOf(OccOf(val)), TagsOf(tagged), val)
      modifies root`node, root`rootTag, this`tagged
      ensures tagged == Untagged(old(tagged), tag, index)
      ensures Matches(State(), h, ShapeOf(OccOf(val)), TagsOf(tagged), val)
    {
      root.ClearTag(leaf, tag, index, h, ShapeOf(OccOf(val)), tagged, val);
      tagged := Untagged(tagged, tag, index);
    }

    /** The leaf and the item of an index. */
    method FindLeaf(index: nat) returns (q: Option<Place>, item: Option<nat>)
      requires Valid() && root.head.Ptr?
      ensures item == val(index)
      ensures item.Some? ==> q.Some? && q.value.level == 0 && OnPath(State(), root.head.place.level, q.value, index)
    {
      hide Matches;
      hide Below;
      hide Key;
      var e;
      ghost var stop;
      q, e, stop := root.Walk(index, root.head.place.level, ShapeOf(OccOf(val)), TagsOf(tagged), val);
      if q.None? { NothingBelow(val, stop, index); }
      item := LeafItem(e);
    }

    /** radix_tree_tag_clear */
    method TagClear(index: nat, tag: nat) returns (r: Option<nat>)
      requires Valid() && tag < MAX_TAGS
      modifies root`node, root`rootTag, this`tagged
      ensures Valid() && r == val(index)
      ensures forall a: nat, i: nat :: tagged(a, i) == (old(tagged)(a, i) && !(a == tag && i == index))
    {
      hide Matches;
      hide Below;
      hide Key;
      if !root.head.Ptr? {
        if index > 0 || root.head.Empty? {
          return None;
        }
        r := Some(root.head.item);
        root.rootTag := PutRoot(root.rootTag, tag, false);
        tagged := Untagged(tagged, tag, index);
      } else {
        var q, item := FindLeaf(index);
        if item.Some? {
          NodeTagClear(q.value, tag, index, root.head.place.level);
        }
        r := item;
      }
    }

    /** radix_tree_tag_set, for an index that has an item */
    method TagSet(index: nat, tag: nat) returns (r: nat)
      requires Valid() && tag < MAX_TAGS && val(index).Some?
      modifies root`node, root`rootTag, this`tagged
      ensures Valid() && val(index) == Some(r)
      ensures forall a: nat, i: nat :: tagged(a, i) == (old(tagged)(a, i) || (a == tag && i == index))
    {
      hide Matches;
      hide Below;
      hide Key;
      if !root.head.Ptr? {
        r := root.head.item;
        root.rootTag := PutRoot(root.rootTag, tag, true);
        tagged := Tagged(tagged, tag, index);
        return;
      }
      ghost var h, w := root.head.place.level, ShapeOf(OccOf(val));
      var q := root.head.place;
      PathStarts(State(), h, w, TagsOf(tagged), val, index);
      if index > MaxIndex(h) { NothingBeyond(State(), h, TagsOf(tagged), val, index); }
      SetStarts(State(), h, w, val, tagged, tag, index);
      r := SetDown(q, index, tag, h);
      SetRoot(State(), h, w, val, tagged, tag, index);
      root.rootTag := PutRoot(root.rootTag, tag, true);
      tagged := Tagged(tagged, tag, index);
    }

    /** The loop of radix_tree_tag_set. */
    method SetDown(top: Place, index: nat, tag: nat, ghost h: nat) returns (r: nat)
      requires tag < MAX_TAGS && val(index).Some? && top == Place(h, 0) && OnPath(State(), h, top, index)
      requires Matches(State(), h, ShapeOf(OccOf(val)), SetTags(tagged, tag, index, h + 1, h), val)
      modifies root`node
      ensures Matches(State(), h, ShapeOf(OccOf(val)), SetTags(tagged, tag, index, 0, h), val) && val(index) == Some(r)
    {
      hide Matches;
      hide Below;
      hide Key;
      ghost var w := ShapeOf(OccOf(val));
      var q := top;
      while true
        invariant OnPath(State(), h, q, index)
        invariant Matches(State(), h, w, SetTags(tagged, tag, index, q.level + 1, h), val)
        decreases q.level
      {
        ghost var t := SetTags(tagged, tag, index, q.level + 1, h);
        PathSlot(State(), h, w, t, val, q, index);
        SlotInUse(val, q.level, index);
        var o := Key(q.level, index) % 64;
        var e := root.node(q).slot(o);
        BitKeeps(State(), h, w, t, val, q, tag, o, true);
        SetOne(WithBit(State(), q, tag, o, true), h, w, val, tagged, tag, index, q.level);
        root.node := PutNode(root.node, q, root.node(q).(tag := PutBit(root.node(q).tag, tag, o, true)));
        if !e.Ptr? {
          KeyBase(index);
          return e.item;
        }
        q := e.place;
      }
    }

    // -------------------------------------------------------------------------
    // Deletion

    /** radix_tree_delete: the deleted item */
    method Delete(index: nat) returns (r: Option<nat>)
      requires Valid()
      modifies this, root
      ensures Valid() && r == old(val)(index)
      ensures forall i: nat :: val(i) == if i == index then None else old(val)(i)
      ensures forall a: nat, i: nat :: tagged(a, i) == (old(tagged)(a, i) && i != index)
    {
      hide Matches;
      hide Below;
      hide Key;
      if !root.head.Ptr? {
        if index > 0 || root.head.Empty? {
          return None;
        }
        r := Some(root.head.item);
        root.rootTag := PutRoot(PutRoot(PutRoot(root.rootTag, 0, false), 1, false), 2, false);
        root.head := Empty;
        val := PutItem(val, index, None);
        tagged := (a, i) => false;
      } else {
        var q, item := FindLeaf(index);
        r := item;
        if item.Some? {
          DeleteAt(q.value, index);
        }
      }
    }

    /** __radix_tree_delete */
    method DeleteAt(q: Place, index: nat)
      requires Valid() && root.head.Ptr? && val(index).Some? && q.level == 0 && OnPath(State(), root.head.place.level, q, index)
      modifies this, root
      ensures Valid() && val == PutItem(old(val), index, None)
      ensures forall a: nat, i: nat :: tagged(a, i) == (old(tagged)(a, i) && i != index)
    {
      hide Matches;
      hide Below;
      hide Key;
      ghost var h := root.head.place.level;
      var tag := 0;
      while tag < MAX_TAGS
        invariant tag <= MAX_TAGS && root.head == old(root.head) && val == old(val) && root.live == old(root.live) && TagsOnItems(tagged, val)
        invariant Matches(State(), h, ShapeOf(OccOf(val)), TagsOf(tagged), val)
        invariant forall a: nat, i: nat :: tagged(a, i) == (old(tagged)(a, i) && !(a < tag && i == index))
      {
        NodeTagClear(q, tag, index, h);
        tag := tag + 1;
      }
      ClearSlot(q, index, h);
      StillTall(old(val), h, index);
      DeleteNode(q, index, h);
    }

    /** replace_slot with NULL */
    method ClearSlot(q: Place, index: nat, ghost h: nat)
      requires q.level == 0 && OnPath(State(), h, q, index) && val(index).Some?
      requires Matches(State(), h, ShapeOf(OccOf(val)), TagsOf(tagged), val)
      modifies root`node, this`val
      ensures val == PutItem(old(val), index, None)
      ensures Matches(State(), h, PathShape(OccOf(val), index, 1), TagsOf(tagged), val)
    {
      hide Matches;
      hide Below;
      hide Key;
      ghost var w := ShapeOf(OccOf(val));
      PathSlot(State(), h, w, TagsOf(tagged), val, q, index);
      KeyBase(index);
      SlotInUse(val, 0, index);
      var o := Key(0, index) % 64;
      ItemKeeps(State(), h, w, TagsOf(tagged), val, q, o, None, false);
      SlotGone(WithItem(State(), q, o, None, root.node(q).count - 1), h, val, tagged, index);
      root.node := PutNode(root.node, q, root.node(q).(slot := PutSlot(root.node(q).slot, o, Empty), count := root.node(q).count - 1));
      val := PutItem(val, index, None);
    }

    /** delete_node */
    method DeleteNode(leaf: Place, index: nat, ghost h: nat)
      requires root.head == Ptr(Place(h, 0)) && TagsOnItems(tagged, val) && OnPath(State(), h, leaf, index) && leaf.level == 0
      requires Matches(State(), h, PathShape(OccOf(val), index, 1), TagsOf(tagged), val) && val(index).None?
      requires Tall(val, h) || Key(h, index) != 0
      modifies root
      ensures Valid()
    {
      hide Matches;
      hide Below;
      hide Key;
      var q := root.PruneUp(leaf, index, h, OccOf(val), TagsOf(tagged), val);
      if q.None? {
        FellRoot(h, index);
      } else if Ptr(q.value) == root.head {
        ShrinkRoot(h);
      } else {
        TallStays(val, h, index, q.value.level);
      }
    }

    /** The root node is empty: the tree is. */
    method FellRoot(ghost h: nat, ghost index: nat)
      requires root.head == Ptr(Place(h, 0)) && TagsOnItems(tagged, val) && Unused(PathShape(OccOf(val), index, h + 1), h, 0)
      requires Matches(State(), h, PathShape(OccOf(val), index, h + 1), TagsOf(tagged), val)
      modifies root`head, root`rootTag, root`live
      ensures Valid()
    {
      hide Matches;
      hide Below;
      hide Key;
      var rootTag': nat -> bool := (_: nat) => false;
      FelledIsBald(State(), h, PathShape(OccOf(val), index, h + 1), TagsOf(tagged), val, Empty, rootTag');
      NothingLeft(State(), h, val, tagged, index);
      root.Fell(h, Empty, rootTag');
    }

    /** radix_tree_shrink */
    method ShrinkRoot(ghost top: nat)
      requires root.head == Ptr(Place(top, 0)) && TagsOnItems(tagged, val)
      requires Matches(State(), top, ShapeOf(OccOf(val)), TagsOf(tagged), val)
      modifies root
      ensures Valid()
    {
      hide Matches;
      hide Below;
      hide Key;
      ghost var h := top;
      while root.head.Ptr?
        invariant root.head.Ptr? ==> root.head == Ptr(Place(h, 0)) && Matches(State(), h, ShapeOf(OccOf(val)), TagsOf(tagged), val)
        invariant !root.head.Ptr? ==> Valid()
        decreases if root.head.Ptr? then h + 1 else 0
      {
        var q := root.head.place;
        RootFacts(State(), h, ShapeOf(OccOf(val)), TagsOf(tagged), val);
        if root.node(q).count != 1 || root.node(q).slot(0).Empty? {
          RootIsTall(State(), h, val, tagged);
          return;
        }
        var child := root.node(q).slot(0);
        if child.Ptr? {
          ShrinkTags(State(), h, val, tagged);
          root.ShrinkOnce(h, root.rootTag, ShapeOf(OccOf(val)), TagsOf(tagged), val);
          h := h - 1;
        } else {
          OneItem(State(), val, tagged);
          FelledIsBald(State(), h, ShapeOf(OccOf(val)), TagsOf(tagged), val, child, root.rootTag);
          root.Fell(h, child, root.rootTag);
        }
      }
    }
  }

  lemma NoRootTag(s: Tree, v: Items, g: TagSets, a: nat, i: nat)
    requires IsTreeOf(s, v, g) && a < MAX_TAGS && !s.rootTag(a)
    ensures !g(a, i)
  {
    hide NodeOk;
    hide Below;
    if s.head.Ptr? {
      var h, w := s.head.place.level, ShapeOf(OccOf(v));
      assert w(h + 1, Key(h + 1, i)) ==> Key(h + 1, i) == 0;
      assert !TagsOf(g)(a, h + 1, 0);
      if g(a, i) {
        BelowHit(TagPred(g, a), h + 1, i);
        BelowHit(OccOf(v), h + 1, i);
      }
    }
  }

  /** A tagged slot is in use; at the lowest level the index itself is tagged. */
  lemma TagLeads(v: Items, g: TagSets, a: nat, l: nat, k: nat)
    requires TagsOnItems(g, v) && TagsOf(g)(a, l, k)
    ensures ShapeOf(OccOf(v))(l, k) && (l == 0 ==> g(a, k))
  {
    BelowSubset(TagPred(g, a), OccOf(v), l, k);
  }

  // ---------------------------------------------------------------------------
  // Facts for insertion

  /** The tags of a new root node: those of the tree, on its first slot. */
  function FirstTags(rootTag: nat -> bool): (nat, nat) -> bool { (a: nat, o: nat) => o == 0 && rootTag(a) }

  lemma PotTags(s: Tree, v: Items, g: TagSets, x: nat)
    requires IsTreeOf(s, v, g) && s.head == Item(x)
    ensures TagsAre(TagsOf(g), 0, 0, FirstTags(s.rootTag))
    ensures forall a | 0 <= a < MAX_TAGS :: s.rootTag(a) == TagsOf(g)(a, 1, 0)
  {
    var t := TagsOf(g);
    forall a: nat, o: nat | a < MAX_TAGS && o < 64 ensures FirstTags(s.rootTag)(a, o) == t(a, 0, 64 * 0 + o) {
      assert Below(TagPred(g, a), 0, o) == g(a, o);
    }
    forall a: nat | a < MAX_TAGS ensures s.rootTag(a) == t(a, 1, 0) {
      if g(a, 0) { BelowHit(TagPred(g, a), 1, 0); assert Key(1, 0) == 0; }
      if Below(TagPred(g, a), 1, 0) { var i := BelowWitness(TagPred(g, a), 1, 0); }
    }
  }

  /** Above the root only the first column is tagged, and all the way up alike. */
  lemma GrowTags(s: Tree, h: nat, v: Items, g: TagSets)
    requires Matches(s, h, ShapeOf(OccOf(v)), TagsOf(g), v) && TagsOnItems(g, v)
    ensures TagsAre(TagsOf(g), h + 1, 0, FirstTags(s.rootTag))
    ensures forall a: nat | a < MAX_TAGS :: s.rootTag(a) == TagsOf(g)(a, h + 2, 0)
  {
    hide NodeOk;
    hide Below;
    var w, t := ShapeOf(OccOf(v)), TagsOf(g);
    forall a: nat, o: nat | a < MAX_TAGS && o < 64 ensures FirstTags(s.rootTag)(a, o) == t(a, h + 1, 64 * 0 + o) {
      if t(a, h + 1, o) { TagLeads(v, g, a, h + 1, o); }
    }
    forall a: nat | a < MAX_TAGS ensures s.rootTag(a) == t(a, h + 2, 0) { ColumnTag(w, v, g, a, h + 1); }
  }

  /** Where only the first slot is in use, a node is tagged exactly if that slot is. */
  lemma ColumnTag(w: Shape, v: Items, g: TagSets, a: nat, l: nat)
    requires w == ShapeOf(OccOf(v)) && TagsOnItems(g, v) && forall o: nat | o < 64 && w(l, o) :: o == 0
    ensures TagsOf(g)(a, l + 1, 0) == TagsOf(g)(a, l, 0)
  {
    var p := TagPred(g, a);
    if Below(p, l, 0) { BelowStep(p, l, 0); }
    if Below(p, l + 1, 0) {
      var o := BelowSome(p, l + 1, 0);
      TagLeads(v, g, a, l, o);
    }
  }

  function NoTags(): (nat, nat) -> bool { (a: nat, o: nat) => false }

  lemma EmptyTags(v: Items, g: TagSets, h: nat)
    requires TagsOnItems(g, v) && forall i: nat :: v(i).None?
    ensures TagsAre(TagsOf(g), h, 0, NoTags()) && forall a: nat, l: nat, k: nat :: !TagsOf(g)(a, l, k)
  {
    forall a: nat, l: nat, k: nat ensures !TagsOf(g)(a, l, k) {
      if TagsOf(g)(a, l, k) { var i := BelowWitness(TagPred(g, a), l, k); }
    }
  }

  lemma PlantShape(s: Tree, h: nat, v: Items, g: TagSets, index: nat)
    requires Matches(s, h, OnlyRoot(h), TagsOf(g), NoItems()) && (forall i: nat :: v(i).None?) && index <= MaxIndex(h)
    ensures Matches(s, h, PathShape(OccOf(v), index, h + 1), TagsOf(g), v)
  {
    hide Matches;
    var w := PathShape(OccOf(v), index, h + 1);
    InTree(h, index);
    forall l: nat, k: nat ensures w(l, k) == OnlyRoot(h)(l, k) {
      if Below(OccOf(v), l, k) { var i := BelowWitness(OccOf(v), l, k); }
      if l > h { KeyStaysZero(h + 1, l, index); }
    }
    MatchesSame(s, h, OnlyRoot(h), TagsOf(g), NoItems(), w, TagsOf(g), v);
  }

  lemma InsideTree(s: Tree, v: Items, g: TagSets, i: nat)
    requires IsTreeOf(s, v, g) && i > (if s.head.Ptr? then MaxIndex(s.head.place.level) else 0)
    ensures v(i).None?
  {
    hide Matches;
    if s.head.Ptr? { NothingBeyond(s, s.head.place.level, TagsOf(g), v, i); }
  }

  /** Below an unused slot nothing is stored or tagged. */
  lemma BareBelow(v: Items, g: TagSets, index: nat, l: nat)
    requires l > 0 && TagsOnItems(g, v) && !PathShape(OccOf(v), index, l + 1)(l, Key(l, index))
    ensures Bare(PathShape(OccOf(v), index, l + 1), TagsOf(g), v, Place(l - 1, Key(l, index)), NoTags())
    ensures v(index).None?
  {
    hide Key;
    hide Below;
    var w, c := PathShape(OccOf(v), index, l + 1), Place(l - 1, Key(l, index));
    if v(index).Some? { BelowHit(OccOf(v), l, index); }
    forall o: nat | o < 64 ensures BareSlot(w, TagsOf(g), v, c, NoTags(), o) {
      var k := 64 * c.prefix + o;
      if Below(OccOf(v), c.level, k) { BelowStep(OccOf(v), c.level, k); }
      BelowLeaf(OccOf(v), k);
      forall a | 0 <= a < MAX_TAGS ensures !TagsOf(g)(a, c.level, k) {
        if TagsOf(g)(a, c.level, k) { TagLeads(v, g, a, c.level, k); }
      }
    }
  }

  /** The height is still needed, or has just become needed. */
  lemma TallNow(s: Tree, v: Items, g: TagSets, index: nat, item: nat, h: nat)
    requires IsTreeOf(s, v, g)
    requires (s.head.Ptr? && s.head.place.level == h) || (h == 0 && index > 0) || (h > 0 && index > MaxIndex(h - 1))
    ensures Tall(PutItem(v, index, Some(item)), h)
  {
    hide Matches;
    hide Key;
    var v' := PutItem(v, index, Some(item));
    if s.head.Ptr? && s.head.place.level == h {
      var i: nat :| v(i).Some? && Key(h, i) != 0;
      assert v'(i).Some?;
    } else {
      KeyBase(index);
      if h > 0 { InTree(h - 1, index); }
      assert v'(index).Some? && Key(h, index) != 0;
    }
  }

  // ---------------------------------------------------------------------------
  // Facts for tags

  /** While tag a is being set: the bits on the path to the index are set on levels lo to h. */
  ghost function SetTags(g: TagSets, a: nat, i: nat, lo: nat, h: nat): Tags {
    (b: nat, l: nat, k: nat) => TagsOf(g)(b, l, k) || (b == a && lo <= l <= h && k == Key(l, i))
  }

  lemma SetStarts(s: Tree, h: nat, w: Shape, v: Items, g: TagSets, a: nat, i: nat)
    requires Matches(s, h, w, TagsOf(g), v)
    ensures Matches(s, h, w, SetTags(g, a, i, h + 1, h), v)
  {
    hide Matches;
    hide Below;
    hide Key;
    var t' := SetTags(g, a, i, h + 1, h);
    forall b: nat, l: nat, k: nat ensures t'(b, l, k) == TagsOf(g)(b, l, k) { }
    MatchesSame(s, h, w, TagsOf(g), v, w, t', v);
  }

  lemma SetOne(s: Tree, h: nat, w: Shape, v: Items, g: TagSets, a: nat, i: nat, l: nat)
    requires l <= h && Matches(s, h, w, PutTags(SetTags(g, a, i, l + 1, h), a, l, Key(l, i), true), v)
    ensures Matches(s, h, w, SetTags(g, a, i, l, h), v)
  {
    hide Matches;
    hide Below;
    hide Key;
    var t, t' := PutTags(SetTags(g, a, i, l + 1, h), a, l, Key(l, i), true), SetTags(g, a, i, l, h);
    forall b: nat, x: nat, k: nat ensures t'(b, x, k) == t(b, x, k) { }
    MatchesSame(s, h, w, t, v, w, t', v);
  }

  lemma SetRoot(s: Tree, h: nat, w: Shape, v: Items, g: TagSets, a: nat, i: nat)
    requires a < MAX_TAGS && Matches(s, h, w, SetTags(g, a, i, 0, h), v) && i <= MaxIndex(h)
    ensures Matches(s.(rootTag := PutRoot(s.rootTag, a, true)), h, w, TagsOf(Tagged(g, a, i)), v)
  {
    hide Matches;
    hide Below;
    hide Key;
    var g' := Tagged(g, a, i);
    var t, t' := PutTags(SetTags(g, a, i, 0, h), a, h + 1, 0, true), TagsOf(g');
    RootBitKeeps(s, h, w, SetTags(g, a, i, 0, h), v, a, true);
    InTree(h, i);
    forall b: nat, l: nat, k: nat | l <= h + 1 ensures t'(b, l, k) == t(b, l, k) {
      assert TagsOf(g)(b, l, k) == Below(TagPred(g, b), l, k) && t'(b, l, k) == Below(TagPred(g', b), l, k);
      if b == a {
        BelowAdd(TagPred(g, a), TagPred(g', a), l, k, i);
      } else {
        BelowSame(TagPred(g, b), TagPred(g', b), l, k);
      }
    }
    MatchesSame(s.(rootTag := PutRoot(s.rootTag, a, true)), h, w, t, v, w, t', v);
  }

  // ---------------------------------------------------------------------------
  // Facts for deletion

  lemma NothingLeft(s: Tree, h: nat, v: Items, g: TagSets, index: nat)
    requires Matches(s, h, PathShape(OccOf(v), index, h + 1), TagsOf(g), v) && Unused(PathShape(OccOf(v), index, h + 1), h, 0)
    ensures forall i: nat :: v(i).None?
  {
    hide NodeOk;
    hide Below;
    hide Key;
    var w := PathShape(OccOf(v), index, h + 1);
    forall i: nat ensures v(i).None? {
      KeyUp(h, i);
      assert w(h + 1, Key(h + 1, i)) ==> Key(h + 1, i) == 0;
      assert !Used(w, h, 0, Key(h, i) % 64);
      if v(i).Some? {
        BelowHit(OccOf(v), h, i);
        BelowHit(OccOf(v), h + 1, i);
      }
    }
  }

  lemma StillTall(v: Items, h: nat, index: nat)
    requires Tall(v, h)
    ensures Tall(PutItem(v, index, None), h) || Key(h, index) != 0
  {
    hide Key;
    var i: nat :| v(i).Some? && Key(h, i) != 0;
    assert i != index ==> PutItem(v, index, None)(i).Some?;
  }

  lemma TallStays(v: Items, h: nat, index: nat, l: nat)
    requires (Tall(v, h) || Key(h, index) != 0) && l < h && Below(OccOf(v), l + 1, Key(l + 1, index))
    ensures Tall(v, h)
  {
    hide Key;
    BelowUp(OccOf(v), l + 1, h, index);
    var i := BelowWitness(OccOf(v), h, Key(h, index));
  }

  /** A root that cannot shrink has an item beyond its first slot. */
  lemma RootIsTall(s: Tree, h: nat, v: Items, g: TagSets)
    requires Matches(s, h, ShapeOf(OccOf(v)), TagsOf(g), v)
    requires s.node(Place(h, 0)).count != 1 || s.node(Place(h, 0)).slot(0).Empty?
    ensures Tall(v, h)
  {
    hide Below;
    hide Key;
    hide Matches;
    var w, p, m := ShapeOf(OccOf(v)), OccOf(v), h + 1;
    RootFacts(s, h, w, TagsOf(g), v);
    BelowRoot(s, h, w, TagsOf(g), v);
    var o := BelowSome(p, m, 0);
    BelowDigitIs(p, h, 0, o);
    BelowLeaf(p, 0);
    var x: nat := o;
    if o == 0 {
      CountOne(w, h, 0, 64, 0);
      x :| x < 64 && x != 0 && Used(w, h, 0, x);
    }
    var i := BelowWitness(p, h, x);
  }

  /** A root with only its first slot in use has the tags of that slot. */
  lemma ShrinkTags(s: Tree, h: nat, v: Items, g: TagSets)
    requires Matches(s, h, ShapeOf(OccOf(v)), TagsOf(g), v) && TagsOnItems(g, v)
    requires s.node(Place(h, 0)).count == 1 && Used(ShapeOf(OccOf(v)), h, 0, 0)
    ensures forall a: nat | a < MAX_TAGS :: s.rootTag(a) == TagsOf(g)(a, h, 0)
  {
    hide Below;
    hide Key;
    hide NodeOk;
    var w := ShapeOf(OccOf(v));
    RootFacts(s, h, w, TagsOf(g), v);
    OnlyFirst(w, h);
    forall a: nat | a < MAX_TAGS ensures s.rootTag(a) == TagsOf(g)(a, h, 0) { ColumnTag(w, v, g, a, h); }
  }

  lemma OneItem(s: Tree, v: Items, g: TagSets)
    requires Matches(s, 0, ShapeOf(OccOf(v)), TagsOf(g), v) && TagsOnItems(g, v)
    requires s.node(Place(0, 0)).count == 1 && v(0).Some?
    ensures (forall i: nat | i != 0 :: v(i).None?) && forall a | 0 <= a < MAX_TAGS :: s.rootTag(a) == g(a, 0)
  {
    hide Below;
    hide NodeOk;
    var w := ShapeOf(OccOf(v));
    RootFacts(s, 0, w, TagsOf(g), v);
    BelowLeaf(OccOf(v), 0);
    OnlyFirst(w, 0);
    ShrinkTags(s, 0, v, g);
    forall i: nat | i != 0 ensures v(i).None? { BelowLeaf(OccOf(v), i); assert !w(0, i); }
    forall a | 0 <= a < MAX_TAGS ensures s.rootTag(a) == g(a, 0) { LeafTag(g, a, 0); }
  }

  // ---------------------------------------------------------------------------
  // What every reachable tree looks like

  lemma LiveInTree(s: Tree, v: Items, g: TagSets, q: Place)
    requires IsTreeOf(s, v, g) && s.live(q)
    ensures s.head.Ptr? && Matches(s, s.head.place.level, ShapeOf(OccOf(v)), TagsOf(g), v)
    ensures q.level <= s.head.place.level && Below(OccOf(v), q.level + 1, q.prefix)
    ensures NodeOk(s, s.head.place.level, ShapeOf(OccOf(v)), TagsOf(g), v, q)
  {
    hide NodeOk;
    hide Below;
  }

  /** Every node in use has a slot in use, and its count says how many. */
  lemma NoEmptyNode(s: Tree, v: Items, g: TagSets, q: Place)
    requires IsTreeOf(s, v, g) && s.live(q)
    ensures s.node(q).count == Count(ShapeOf(OccOf(v)), q.level, q.prefix, 64) > 0
    ensures exists i: nat :: v(i).Some? && Key(q.level + 1, i) == q.prefix
  {
    hide Below;
    hide Key;
    hide IsTreeOf;
    hide Matches;
    var p, w, m := OccOf(v), ShapeOf(OccOf(v)), q.level + 1;
    LiveInTree(s, v, g, q);
    var i := BelowWitness(p, m, q.prefix);
    var o := BelowSome(p, m, q.prefix);
    BelowDigitIs(p, q.level, q.prefix, o);
    assert Used(w, q.level, q.prefix, o);
    CountZero(w, q.level, q.prefix, 64);
  }

  /** Every bit says whether some index below its slot is tagged. */
  lemma BitIsExact(s: Tree, v: Items, g: TagSets, q: Place, o: nat, a: nat)
    requires IsTreeOf(s, v, g) && s.live(q) && o < 64 && a < MAX_TAGS
    ensures s.node(q).tag(a, o) <==> Below(TagPred(g, a), q.level, 64 * q.prefix + o)
    ensures s.node(q).tag(a, o) <==> exists i: nat :: g(a, i) && Key(q.level, i) == 64 * q.prefix + o
  {
    hide Key;
    hide IsTreeOf;
    hide Matches;
    var p, k := TagPred(g, a), 64 * q.prefix + o;
    LiveInTree(s, v, g, q);
    NodeSlot(s, ShapeOf(OccOf(v)), TagsOf(g), v, q, o);
    if Below(p, q.level, k) { var i := BelowWitness(p, q.level, k); assert g(a, i); }
    if i: nat :| g(a, i) && Key(q.level, i) == k { assert p(i); }
  }

  /** So the bit of an inner slot is the OR of the bits of the node below it. */
  lemma InnerBitIsOr(s: Tree, v: Items, g: TagSets, q: Place, o: nat, a: nat)
    requires IsTreeOf(s, v, g) && s.live(q) && o < 64 && a < MAX_TAGS && s.node(q).slot(o).Ptr?
    ensures var c := s.node(q).slot(o).place;
            s.live(c) && (s.node(q).tag(a, o) <==> exists x: nat :: x < 64 && s.node(c).tag(a, x))
  {
    hide Key;
    hide Below;
    hide IsTreeOf;
    hide Matches;
    var p, w, t, m, k := TagPred(g, a), ShapeOf(OccOf(v)), TagsOf(g), q.level, 64 * q.prefix + o;
    LiveInTree(s, v, g, q);
    NodeSlot(s, w, t, v, q, o);
    BitIsExact(s, v, g, q, o, a);
    var c := s.node(q).slot(o).place;
    ChildLive(s, s.head.place.level, w, t, v, m, k);
    BelowIs(p, m, k);
    forall x: nat | x < 64 ensures s.node(c).tag(a, x) <==> BelowDigit(p, m, k, x) {
      BitIsExact(s, v, g, c, x, a);
      BelowDigitIs(p, c.level, k, x);
    }
  }

  /** Two nodes that cannot be told apart. */
  ghost predicate Alike(n: Node, n': Node) {
    && n.level == n'.level && n.offset == n'.offset && n.parent == n'.parent && n.count == n'.count
    && forall o: nat | o < 64 :: AlikeSlot(n, n', o)
  }

  ghost predicate AlikeSlot(n: Node, n': Node, o: nat) {
    n.slot(o) == n'.slot(o) && forall a | 0 <= a < MAX_TAGS :: n.tag(a, o) == n'.tag(a, o)
  }

  /** The map and the tag sets determine the whole tree, whatever operations have built it. */
  lemma TreeIsCanonical(s: Tree, s': Tree, v: Items, g: TagSets)
    requires IsTreeOf(s, v, g) && IsTreeOf(s', v, g)
    ensures s.head == s'.head && forall a | 0 <= a < MAX_TAGS :: s.rootTag(a) == s'.rootTag(a)
    ensures forall q: Place :: s.live(q) == s'.live(q) && (s.live(q) ==> Alike(s.node(q), s'.node(q)))
  {
    hide Below;
    hide Key;
    hide NodeOk;
    SameHead(s, s', v, g);
    if s.head.Ptr? {
      var h, w, t := s.head.place.level, ShapeOf(OccOf(v)), TagsOf(g);
      forall q: Place | s.live(q) ensures Alike(s.node(q), s'.node(q)) { SameNodes(s, s', h, w, t, v, q); }
    }
  }

  lemma SameNodes(s: Tree, s': Tree, h: nat, w: Shape, t: Tags, v: Items, q: Place)
    requires NodeOk(s, h, w, t, v, q) && NodeOk(s', h, w, t, v, q)
    ensures Alike(s.node(q), s'.node(q))
  {
    forall o: nat | o < 64 ensures AlikeSlot(s.node(q), s'.node(q), o) {
      assert SlotOk(s, w, t, v, q, o) && SlotOk(s', w, t, v, q, o);
    }
  }

  lemma SameHead(s: Tree, s': Tree, v: Items, g: TagSets)
    requires IsTreeOf(s, v, g) && IsTreeOf(s', v, g)
    ensures s.head == s'.head
  {
    hide Matches;
    hide Below;
    hide Key;
    if s.head.Ptr? && s'.head.Ptr? {
      NotLower(s, s', v, g);
      NotLower(s', s, v, g);
    } else if s.head.Ptr? {
      HasTwo(v, s.head.place.level);
    } else if s'.head.Ptr? {
      HasTwo(v, s'.head.place.level);
    }
  }

  lemma HasTwo(v: Items, h: nat)
    requires Tall(v, h)
    ensures exists i: nat :: i != 0 && v(i).Some?
  {
    var i: nat :| v(i).Some? && Key(h, i) != 0;
    KeyOfZero(h);
  }

  lemma NotLower(s: Tree, s': Tree, v: Items, g: TagSets)
    requires IsTreeOf(s, v, g) && IsTreeOf(s', v, g) && s.head.Ptr? && s'.head.Ptr?
    ensures s.head.place.level <= s'.head.place.level
  {
    hide Matches;
    hide Key;
    var h, h' := s.head.place.level, s'.head.place.level;
    var i: nat :| v(i).Some? && Key(h, i) != 0;
    if i > MaxIndex(h') { NothingBeyond(s', h', TagsOf(g), v, i); }
    InTree(h', i);
    if h' < h { KeyStaysZero(h' + 1, h, i); }
  }
}
