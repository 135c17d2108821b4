/** Elementary changes of a radix tree: each changes one slot, one tag bit or the root, and keeps the tree matched. */
module RadixMoves {
  import opened RadixState
  import opened Options

  /** Nothing that node q shows has changed. */
  ghost predicate SameAt(w: Shape, w': Shape, t: Tags, t': Tags, v: Items, v': Items, q: Place) {
    forall o: nat | o < 64 :: SameSlot(w, w', t, t', v, v', q, o)
  }

  ghost predicate SameSlot(w: Shape, w': Shape, t: Tags, t': Tags, v: Items, v': Items, q: Place, o: nat) {
    var l, k := q.level, 64 * q.prefix + o;
    w'(l, k) == w(l, k) && (forall a | 0 <= a < MAX_TAGS :: t'(a, l, k) == t(a, l, k)) && (l == 0 ==> v'(k) == v(k))
  }

  /** Node contents, apart from the parent pointer, are as before. */
  ghost predicate SameNode(n: Node, n': Node) { n' == n.(parent := n'.parent) }

  lemma NodeFrame(s: Tree, s': Tree, h: nat, h': nat, w: Shape, w': Shape, t: Tags, t': Tags, v: Items, v': Items, q: Place)
    requires NodeOk(s, h, w, t, v, q) && SameNode(s.node(q), s'.node(q)) && SameAt(w, w', t, t', v, v', q)
    requires s'.node(q).parent == (if q.level == h' then None else Some(Place(q.level + 1, q.prefix / 64)))
    ensures NodeOk(s', h', w', t', v', q)
  {
    forall o: nat | o < 64 ensures SlotOk(s', w', t', v', q, o) {
      assert SlotOk(s, w, t, v, q, o) && SameSlot(w, w', t, t', v, v', q, o);
    }
    forall o: nat | o < 64 ensures Used(w', q.level, q.prefix, o) == Used(w, q.level, q.prefix, o) {
      assert SameSlot(w, w', t, t', v, v', q, o);
    }
    CountFrame(w, w', q.level, q.prefix, 64);
  }

  lemma ParentOf(s: Tree, h: nat, w: Shape, t: Tags, v: Items, q: Place)
    requires NodeOk(s, h, w, t, v, q)
    ensures s.node(q).parent == (if q.level == h then None else Some(Place(q.level + 1, q.prefix / 64)))
  {
  }

  // ---------------------------------------------------------------------------
  // Items

  /** Store or remove an item in a leaf, and keep count. */
  function WithItem(s: Tree, q: Place, o: nat, x: Option<nat>, count: nat): Tree {
    s.(node := PutNode(s.node, q, s.node(q).(slot := PutSlot(s.node(q).slot, o, ToEntry(x)), count := count)))
  }

  lemma ItemNode(s: Tree, h: nat, w: Shape, t: Tags, v: Items, q: Place, o: nat, x: Option<nat>, b: bool)
    requires NodeOk(s, h, w, t, v, q) && q.level == 0 && o < 64
    ensures var k := 64 * q.prefix + o;
            var count := s.node(q).count + (if b && !w(0, k) then 1 else if !b && w(0, k) then -1 else 0);
            count >= 0 && NodeOk(WithItem(s, q, o, x, count), h, PutShape(w, 0, k, b), t, PutItem(v, k, x), q)
  {
    var k := 64 * q.prefix + o;
    var w', v' := PutShape(w, 0, k, b), PutItem(v, k, x);
    if w(0, k) != b {
      CountPut(w, 0, q.prefix, 64, o, b);
    } else {
      CountFrame(w, w', 0, q.prefix, 64);
    }
    var count := s.node(q).count + (if b && !w(0, k) then 1 else if !b && w(0, k) then -1 else 0);
    var s' := WithItem(s, q, o, x, count);
    forall j: nat | j < 64 ensures SlotOk(s', w', t, v', q, j) { assert SlotOk(s, w, t, v, q, j); }
  }

  lemma ItemElsewhere(w: Shape, t: Tags, v: Items, q: Place, o: nat, x: Option<nat>, b: bool, r: Place)
    requires q.level == 0 && o < 64 && r != q
    ensures var k := 64 * q.prefix + o; SameAt(w, PutShape(w, 0, k, b), t, t, v, PutItem(v, k, x), r)
  {
  }

  /** One leaf slot gets a new content; `b` says whether it is in use afterwards. */
  lemma ItemKeeps(s: Tree, h: nat, w: Shape, t: Tags, v: Items, q: Place, o: nat, x: Option<nat>, b: bool)
    requires Matches(s, h, w, t, v) && s.live(q) && q.level == 0 && o < 64
    ensures var k := 64 * q.prefix + o;
            var count := s.node(q).count + (if b && !w(0, k) then 1 else if !b && w(0, k) then -1 else 0);
            count >= 0 && Matches(WithItem(s, q, o, x, count), h, PutShape(w, 0, k, b), t, PutItem(v, k, x))
  {
    hide NodeOk;
    hide SameAt;
    var k := 64 * q.prefix + o;
    var w', v' := PutShape(w, 0, k, b), PutItem(v, k, x);
    ItemNode(s, h, w, t, v, q, o, x, b);
    LeafClosed(w, k, b);
    var count := s.node(q).count + (if b && !w(0, k) then 1 else if !b && w(0, k) then -1 else 0);
    var s' := WithItem(s, q, o, x, count);
    forall r: Place | s'.live(r) ensures NodeOk(s', h, w', t, v', r) {
      if r != q {
        ItemElsewhere(w, t, v, q, o, x, b, r);
        ParentOf(s, h, w, t, v, r);
        NodeFrame(s, s', h, h, w, w', t, t, v, v', r);
      }
    }
  }

  lemma LeafClosed(w: Shape, k: nat, b: bool)
    requires Closed(w) && w(1, k / 64)
    ensures Closed(PutShape(w, 0, k, b))
  {
  }

  // ---------------------------------------------------------------------------
  // Child nodes

  function NoSlots(): nat -> Entry { (_: nat) => Empty }

  /** Hang an empty node with the given tags into slot o of node q. */
  function WithChild(s: Tree, q: Place, o: nat, tags: (nat, nat) -> bool): Tree {
    var l, k := q.level, 64 * q.prefix + o;
    var c := Place(if l > 0 then l - 1 else 0, k);
    var n := s.node(q);
    s.(node := PutNode(PutNode(s.node, c, Node(c.level, o, Some(q), 0, NoSlots(), tags)),
                       q, n.(slot := PutSlot(n.slot, o, Ptr(c)), count := n.count + 1)),
       live := PutLive(s.live, c, true))
  }

  /** The slots below key k at level l are unused and the tags are as given. */
  ghost predicate Bare(w: Shape, t: Tags, v: Items, c: Place, tags: (nat, nat) -> bool) {
    forall o: nat | o < 64 :: BareSlot(w, t, v, c, tags, o)
  }

  ghost predicate BareSlot(w: Shape, t: Tags, v: Items, c: Place, tags: (nat, nat) -> bool, o: nat) {
    var k := 64 * c.prefix + o;
    !w(c.level, k) && (c.level == 0 ==> v(k).None?) && forall a | 0 <= a < MAX_TAGS :: tags(a, o) == t(a, c.level, k)
  }

  lemma ChildNode(s: Tree, h: nat, w: Shape, t: Tags, v: Items, q: Place, o: nat, tags: (nat, nat) -> bool)
    requires NodeOk(s, h, w, t, v, q) && 0 < q.level <= h && o < 64 && !w(q.level, 64 * q.prefix + o)
    requires Bare(w, t, v, Place(q.level - 1, 64 * q.prefix + o), tags)
    ensures var s', w' := WithChild(s, q, o, tags), PutShape(w, q.level, 64 * q.prefix + o, true);
            NodeOk(s', h, w', t, v, q) && NodeOk(s', h, w', t, v, Place(q.level - 1, 64 * q.prefix + o))
  {
    hide NodeOk;
    hide Bare;
    ParentSlot(s, h, w, t, v, q, o, tags);
    NewChild(s, h, w, t, v, q, o, tags);
  }

  lemma ParentSlot(s: Tree, h: nat, w: Shape, t: Tags, v: Items, q: Place, o: nat, tags: (nat, nat) -> bool)
    requires NodeOk(s, h, w, t, v, q) && 0 < q.level <= h && o < 64 && !w(q.level, 64 * q.prefix + o)
    ensures NodeOk(WithChild(s, q, o, tags), h, PutShape(w, q.level, 64 * q.prefix + o, true), t, v, q)
  {
    var s', w' := WithChild(s, q, o, tags), PutShape(w, q.level, 64 * q.prefix + o, true);
    CountPut(w, q.level, q.prefix, 64, o, true);
    forall j: nat | j < 64 ensures SlotOk(s', w', t, v, q, j) { assert SlotOk(s, w, t, v, q, j); }
  }

  lemma NewChild(s: Tree, h: nat, w: Shape, t: Tags, v: Items, q: Place, o: nat, tags: (nat, nat) -> bool)
    requires 0 < q.level <= h && o < 64 && Bare(w, t, v, Place(q.level - 1, 64 * q.prefix + o), tags)
    ensures var k := 64 * q.prefix + o;
            NodeOk(WithChild(s, q, o, tags), h, PutShape(w, q.level, k, true), t, v, Place(q.level - 1, k))
  {
    var k := 64 * q.prefix + o;
    var c := Place(q.level - 1, k);
    var s', w' := WithChild(s, q, o, tags), PutShape(w, q.level, k, true);
    forall j: nat | j < 64 ensures SlotOk(s', w', t, v, c, j) && !Used(w', c.level, c.prefix, j) {
      assert BareSlot(w, t, v, c, tags, j);
    }
    CountZero(w', c.level, c.prefix, 64);
  }

  lemma SlotElsewhere(w: Shape, t: Tags, v: Items, q: Place, o: nat, b: bool, r: Place)
    requires o < 64 && r != q
    ensures SameAt(w, PutShape(w, q.level, 64 * q.prefix + o, b), t, t, v, v, r)
  {
  }

  lemma SlotClosed(w: Shape, l: nat, k: nat)
    requires Closed(w) && w(l + 1, k / 64)
    ensures Closed(PutShape(w, l, k, true))
  {
  }

  lemma ChildKeeps(s: Tree, h: nat, w: Shape, t: Tags, v: Items, q: Place, o: nat, tags: (nat, nat) -> bool)
    requires Matches(s, h, w, t, v) && s.live(q) && q.level > 0 && o < 64 && !w(q.level, 64 * q.prefix + o)
    requires Bare(w, t, v, Place(q.level - 1, 64 * q.prefix + o), tags)
    ensures Matches(WithChild(s, q, o, tags), h, PutShape(w, q.level, 64 * q.prefix + o, true), t, v)
  {
    hide NodeOk;
    hide SameAt;
    hide Bare;
    var k := 64 * q.prefix + o;
    var c := Place(q.level - 1, k);
    var s', w' := WithChild(s, q, o, tags), PutShape(w, q.level, k, true);
    ChildNode(s, h, w, t, v, q, o, tags);
    SlotClosed(w, q.level, k);
    forall r: Place | s'.live(r) ensures NodeOk(s', h, w', t, v, r) {
      if r != q && r != c {
        SlotElsewhere(w, t, v, q, o, true, r);
        ParentOf(s, h, w, t, v, r);
        NodeFrame(s, s', h, h, w, w', t, t, v, v, r);
      }
    }
  }

  /** The node at (l, p) has no slot in use. */
  ghost predicate Unused(w: Shape, l: nat, p: nat) { forall o: nat | o < 64 :: !Used(w, l, p, o) }

  /** Take the empty node out of slot o of node q and free it. */
  function WithoutChild(s: Tree, q: Place, o: nat): Tree {
    var l, k := q.level, 64 * q.prefix + o;
    var c := Place(if l > 0 then l - 1 else 0, k);
    var n := s.node(q);
    s.(node := PutNode(s.node, q, n.(slot := PutSlot(n.slot, o, Empty), count := if n.count > 0 then n.count - 1 else 0)),
       live := PutLive(s.live, c, false))
  }

  lemma DropNode(s: Tree, h: nat, w: Shape, t: Tags, v: Items, q: Place, o: nat)
    requires NodeOk(s, h, w, t, v, q) && 0 < q.level <= h && o < 64 && w(q.level, 64 * q.prefix + o)
    ensures NodeOk(WithoutChild(s, q, o), h, PutShape(w, q.level, 64 * q.prefix + o, false), t, v, q)
    ensures s.node(q).count > 0
  {
    var s', w' := WithoutChild(s, q, o), PutShape(w, q.level, 64 * q.prefix + o, false);
    CountPut(w, q.level, q.prefix, 64, o, false);
    forall j: nat | j < 64 ensures SlotOk(s', w', t, v, q, j) { assert SlotOk(s, w, t, v, q, j); }
  }

  lemma DropClosed(w: Shape, l: nat, k: nat)
    requires Closed(w) && l > 0 && Unused(w, l - 1, k)
    ensures Closed(PutShape(w, l, k, false))
  {
    var w' := PutShape(w, l, k, false);
    forall x: nat, y: nat | w'(x, y) ensures w'(x + 1, y / 64) {
      assert Used(w, x, y / 64, y % 64);
    }
  }

  lemma DropKeeps(s: Tree, h: nat, w: Shape, t: Tags, v: Items, q: Place, o: nat)
    requires Matches(s, h, w, t, v) && s.live(q) && q.level > 0 && o < 64 && w(q.level, 64 * q.prefix + o)
    requires Unused(w, q.level - 1, 64 * q.prefix + o)
    ensures Matches(WithoutChild(s, q, o), h, PutShape(w, q.level, 64 * q.prefix + o, false), t, v)
    ensures s.node(q).count > 0
  {
    hide NodeOk;
    hide SameAt;
    var k := 64 * q.prefix + o;
    var s', w' := WithoutChild(s, q, o), PutShape(w, q.level, k, false);
    DropNode(s, h, w, t, v, q, o);
    DropClosed(w, q.level, k);
    forall r: Place | s'.live(r) ensures NodeOk(s', h, w', t, v, r) {
      if r != q {
        SlotElsewhere(w, t, v, q, o, false, r);
        ParentOf(s, h, w, t, v, r);
        NodeFrame(s, s', h, h, w, w', t, t, v, v, r);
      }
    }
  }

  // ---------------------------------------------------------------------------
  // Tags

  function WithBit(s: Tree, q: Place, a: nat, o: nat, b: bool): Tree {
    s.(node := PutNode(s.node, q, s.node(q).(tag := PutBit(s.node(q).tag, a, o, b))))
  }

  lemma BitElsewhere(w: Shape, t: Tags, v: Items, q: Place, a: nat, o: nat, b: bool, r: Place)
    requires o < 64 && r != q
    ensures SameAt(w, w, t, PutTags(t, a, q.level, 64 * q.prefix + o, b), v, v, r)
  {
  }

  lemma BitNode(s: Tree, h: nat, w: Shape, t: Tags, v: Items, q: Place, a: nat, o: nat, b: bool)
    requires NodeOk(s, h, w, t, v, q) && o < 64 && a < MAX_TAGS
    ensures NodeOk(WithBit(s, q, a, o, b), h, w, PutTags(t, a, q.level, 64 * q.prefix + o, b), v, q)
  {
    var s', t' := WithBit(s, q, a, o, b), PutTags(t, a, q.level, 64 * q.prefix + o, b);
    forall j: nat | j < 64 ensures SlotOk(s', w, t', v, q, j) { assert SlotOk(s, w, t, v, q, j); }
  }

  lemma BitKeeps(s: Tree, h: nat, w: Shape, t: Tags, v: Items, q: Place, a: nat, o: nat, b: bool)
    requires Matches(s, h, w, t, v) && s.live(q) && o < 64 && a < MAX_TAGS
    ensures Matches(WithBit(s, q, a, o, b), h, w, PutTags(t, a, q.level, 64 * q.prefix + o, b), v)
  {
    hide NodeOk;
    hide SameAt;
    var s', t' := WithBit(s, q, a, o, b), PutTags(t, a, q.level, 64 * q.prefix + o, b);
    BitNode(s, h, w, t, v, q, a, o, b);
    forall r: Place | s'.live(r) ensures NodeOk(s', h, w, t', v, r) {
      if r != q {
        BitElsewhere(w, t, v, q, a, o, b, r);
        ParentOf(s, h, w, t, v, r);
        NodeFrame(s, s', h, h, w, w, t, t', v, v, r);
      }
    }
  }

  lemma RootBitKeeps(s: Tree, h: nat, w: Shape, t: Tags, v: Items, a: nat, b: bool)
    requires Matches(s, h, w, t, v) && a < MAX_TAGS
    ensures Matches(s.(rootTag := PutRoot(s.rootTag, a, b)), h, w, PutTags(t, a, h + 1, 0, b), v)
  {
    hide NodeOk;
    hide SameAt;
    var s', t' := s.(rootTag := PutRoot(s.rootTag, a, b)), PutTags(t, a, h + 1, 0, b);
    forall r: Place | s'.live(r) ensures NodeOk(s', h, w, t', v, r) {
      AboveElsewhere(w, t, v, h, a, b, r);
      ParentOf(s, h, w, t, v, r);
      NodeFrame(s, s', h, h, w, w, t, t', v, v, r);
    }
  }

  lemma AboveElsewhere(w: Shape, t: Tags, v: Items, h: nat, a: nat, b: bool, r: Place)
    requires r.level <= h
    ensures SameAt(w, w, t, PutTags(t, a, h + 1, 0, b), v, v, r)
  {
  }

  /** What matches one description matches every equal one. */
  lemma MatchesSame(s: Tree, h: nat, w: Shape, t: Tags, v: Items, w': Shape, t': Tags, v': Items)
    requires Matches(s, h, w, t, v)
    requires (forall l: nat, k: nat :: w'(l, k) == w(l, k)) && (forall i: nat :: v'(i) == v(i))
    requires forall a: nat, l: nat, k: nat | a < MAX_TAGS && l <= h + 1 :: t'(a, l, k) == t(a, l, k)
    ensures Matches(s, h, w', t', v')
  {
    hide NodeOk;
    hide SameAt;
    forall r: Place | s.live(r) ensures NodeOk(s, h, w', t', v', r) {
      AllSame(w, w', t, t', v, v', r, h);
      ParentOf(s, h, w, t, v, r);
      NodeFrame(s, s, h, h, w, w', t, t', v, v', r);
    }
  }

  lemma AllSame(w: Shape, w': Shape, t: Tags, t': Tags, v: Items, v': Items, r: Place, h: nat)
    requires (forall l: nat, k: nat :: w'(l, k) == w(l, k)) && (forall i: nat :: v'(i) == v(i)) && r.level <= h
    requires forall a: nat, l: nat, k: nat | a < MAX_TAGS && l <= h + 1 :: t'(a, l, k) == t(a, l, k)
    ensures SameAt(w, w', t, t', v, v', r)
  {
  }

  // ---------------------------------------------------------------------------
  // The root

  function OneSlot(e: Entry): nat -> Entry { (o: nat) => if o == 0 then e else Empty }

  /** One turn of radix_tree_extend: a node above the root, whose first slot takes what the root pointed to. */
  function Grown(s: Tree, h: nat, tags: (nat, nat) -> bool, rootTag: nat -> bool): Tree {
    var q, c := Place(h + 1, 0), Place(h, 0);
    s.(head := Ptr(q), rootTag := rootTag, live := PutLive(s.live, q, true),
       node := PutNode(PutNode(s.node, c, s.node(c).(parent := Some(q))), q, Node(h + 1, 0, None, 1, OneSlot(s.head), tags)))
  }

  ghost predicate TagsAre(t: Tags, l: nat, p: nat, tags: (nat, nat) -> bool) {
    forall a: nat, o: nat | a < MAX_TAGS && o < 64 :: tags(a, o) == t(a, l, 64 * p + o)
  }

  lemma GrownNode(s: Tree, h: nat, w: Shape, t: Tags, v: Items, tags: (nat, nat) -> bool, rootTag: nat -> bool)
    requires Matches(s, h, w, t, v) && TagsAre(t, h + 1, 0, tags)
    ensures NodeOk(Grown(s, h, tags, rootTag), h + 1, w, t, v, Place(h + 1, 0))
  {
    hide NodeOk;
    var s', q := Grown(s, h, tags, rootTag), Place(h + 1, 0);
    assert Used(w, h + 1, 0, 0);
    CountOne(w, h + 1, 0, 64, 0);
    forall o: nat | o < 64 ensures SlotOk(s', w, t, v, q, o) && (o != 0 ==> !Used(w, h + 1, 0, o)) { }
    NodeIs(s', h + 1, w, t, v, q);
  }

  lemma NodeIs(s: Tree, h: nat, w: Shape, t: Tags, v: Items, q: Place)
    requires s.node(q).level == q.level && s.node(q).offset == q.prefix % 64 && s.node(q).count == Count(w, q.level, q.prefix, 64)
    requires s.node(q).parent == (if q.level == h then None else Some(Place(q.level + 1, q.prefix / 64)))
    requires forall o: nat | o < 64 :: SlotOk(s, w, t, v, q, o)
    ensures NodeOk(s, h, w, t, v, q)
  {
  }

  lemma GrownKeeps(s: Tree, h: nat, w: Shape, t: Tags, v: Items, tags: (nat, nat) -> bool, rootTag: nat -> bool)
    requires Matches(s, h, w, t, v) && TagsAre(t, h + 1, 0, tags)
    requires forall a: nat | a < MAX_TAGS :: rootTag(a) == t(a, h + 2, 0)
    ensures Matches(Grown(s, h, tags, rootTag), h + 1, w, t, v)
  {
    hide NodeOk;
    hide SameAt;
    var s', q := Grown(s, h, tags, rootTag), Place(h + 1, 0);
    GrownNode(s, h, w, t, v, tags, rootTag);
    assert w(h + 1 + 1, 0 / 64);
    forall r: Place | s'.live(r) ensures NodeOk(s', h + 1, w, t, v, r) {
      if r != q {
        ParentOf(s, h, w, t, v, r);
        NothingElsewhere(w, t, v, r);
        NodeFrame(s, s', h, h + 1, w, w, t, t, v, v, r);
      }
    }
  }

  lemma NothingElsewhere(w: Shape, t: Tags, v: Items, r: Place)
    ensures SameAt(w, w, t, t, v, v, r)
  {
  }

  /** One turn of radix_tree_shrink: the root's only child, in its first slot, becomes the root. */
  function Shrunk(s: Tree, h: nat, rootTag: nat -> bool): Tree {
    var q, c := Place(h, 0), Place(if h > 0 then h - 1 else 0, 0);
    s.(head := s.node(q).slot(0), rootTag := rootTag, live := PutLive(s.live, q, false),
       node := PutNode(s.node, c, s.node(c).(parent := None)))
  }

  lemma OnlyFirst(w: Shape, h: nat)
    requires Closed(w) && (forall l: nat, k: nat | l > h && w(l, k) :: k == 0)
    requires Used(w, h, 0, 0) && Count(w, h, 0, 64) == 1
    ensures forall l: nat, k: nat | l >= h && w(l, k) :: k == 0
  {
    CountOne(w, h, 0, 64, 0);
    forall l: nat, k: nat | l >= h && w(l, k) ensures k == 0 {
      if l == h {
        assert w(l + 1, k / 64);
        assert Used(w, h, 0, k);
      }
    }
  }

  lemma ShrunkKeeps(s: Tree, h: nat, w: Shape, t: Tags, v: Items, rootTag: nat -> bool)
    requires Matches(s, h, w, t, v) && h > 0 && s.node(Place(h, 0)).count == 1 && s.node(Place(h, 0)).slot(0) != Empty
    requires forall a: nat | a < MAX_TAGS :: rootTag(a) == t(a, h, 0)
    ensures Matches(Shrunk(s, h, rootTag), h - 1, w, t, v)
  {
    hide NodeOk;
    hide SameAt;
    var s', q := Shrunk(s, h, rootTag), Place(h, 0);
    RootFacts(s, h, w, t, v);
    OnlyFirst(w, h);
    forall r: Place | s'.live(r) ensures NodeOk(s', h - 1, w, t, v, r) {
      ParentOf(s, h, w, t, v, r);
      NothingElsewhere(w, t, v, r);
      NodeFrame(s, s', h, h - 1, w, w, t, t, v, v, r);
    }
  }

  /** What the root node shows. */
  lemma RootFacts(s: Tree, h: nat, w: Shape, t: Tags, v: Items)
    requires Matches(s, h, w, t, v)
    ensures s.live(Place(h, 0)) && s.node(Place(h, 0)).count == Count(w, h, 0, 64)
    ensures h > 0 ==> (s.node(Place(h, 0)).slot(0) != Empty <==> Used(w, h, 0, 0))
    ensures h > 0 && Used(w, h, 0, 0) ==> s.node(Place(h, 0)).slot(0) == Ptr(Place(h - 1, 0))
    ensures h == 0 ==> s.node(Place(h, 0)).slot(0) == ToEntry(v(0))
  {
    var q := Place(h, 0);
    assert s.live(q) && NodeOk(s, h, w, t, v, q) && SlotOk(s, w, t, v, q, 0);
  }

  // ---------------------------------------------------------------------------
  // Trees without nodes

  /** No nodes: the root is empty, or holds the item of index 0 directly. */
  ghost predicate Bald(s: Tree, e: Entry) { s.head == e && !e.Ptr? && forall q: Place :: !s.live(q) }

  /** The shape that only has an empty root node at level h. */
  function OnlyRoot(h: nat): Shape { (l: nat, k: nat) => l > h && k == 0 }

  function NoItems(): Items { (_: nat) => None }

  /** A first, empty root node. */
  function Planted(s: Tree, h: nat, tags: (nat, nat) -> bool): Tree {
    var q := Place(h, 0);
    s.(head := Ptr(q), live := PutLive(s.live, q, true), node := PutNode(s.node, q, Node(h, 0, None, 0, NoSlots(), tags)))
  }

  lemma PlantedKeeps(s: Tree, h: nat, t: Tags, tags: (nat, nat) -> bool)
    requires Bald(s, Empty) && TagsAre(t, h, 0, tags) && forall a | 0 <= a < MAX_TAGS :: s.rootTag(a) == t(a, h + 1, 0)
    ensures Matches(Planted(s, h, tags), h, OnlyRoot(h), t, NoItems())
  {
    hide NodeOk;
    var s', w, q := Planted(s, h, tags), OnlyRoot(h), Place(h, 0);
    CountZero(w, h, 0, 64);
    forall o: nat | o < 64 ensures SlotOk(s', w, t, NoItems(), q, o) && !Used(w, h, 0, o) { }
    NodeIs(s', h, w, t, NoItems(), q);
  }

  /** The item in the root moves into the first slot of a new leaf. */
  function Potted(s: Tree, tags: (nat, nat) -> bool, rootTag: nat -> bool): Tree {
    var q := Place(0, 0);
    s.(head := Ptr(q), rootTag := rootTag, live := PutLive(s.live, q, true),
       node := PutNode(s.node, q, Node(0, 0, None, 1, OneSlot(s.head), tags)))
  }

  lemma PottedKeeps(s: Tree, x: nat, t: Tags, tags: (nat, nat) -> bool, rootTag: nat -> bool)
    requires Bald(s, Item(x)) && TagsAre(t, 0, 0, tags) && forall a | 0 <= a < MAX_TAGS :: rootTag(a) == t(a, 1, 0)
    ensures Matches(Potted(s, tags, rootTag), 0, (l: nat, k: nat) => k == 0, t, PutItem(NoItems(), 0, Some(x)))
  {
    hide NodeOk;
    var s', w, q := Potted(s, tags, rootTag), (l: nat, k: nat) => k == 0, Place(0, 0);
    var v := PutItem(NoItems(), 0, Some(x));
    assert Used(w, 0, 0, 0);
    CountOne(w, 0, 0, 64, 0);
    forall o: nat | o < 64 ensures SlotOk(s', w, t, v, q, o) && (o != 0 ==> !Used(w, 0, 0, o)) { }
    NodeIs(s', 0, w, t, v, q);
  }

  /** The root node goes away; what was in its first slot, an item or nothing, is left. */
  function Felled(s: Tree, h: nat, head: Entry, rootTag: nat -> bool): Tree {
    s.(head := head, rootTag := rootTag, live := PutLive(s.live, Place(h, 0), false))
  }

  lemma FelledIsBald(s: Tree, h: nat, w: Shape, t: Tags, v: Items, head: Entry, rootTag: nat -> bool)
    requires Matches(s, h, w, t, v) && !head.Ptr? && (Unused(w, h, 0) || h == 0)
    ensures Bald(Felled(s, h, head, rootTag), head)
  {
    hide NodeOk;
    var s' := Felled(s, h, head, rootTag);
    if h > 0 {
      forall q: Place ensures !s'.live(q) { if s.live(q) && q != Place(h, 0) { Climb(s, h, w, q); } }
    }
  }

  /** Below an empty root there are no nodes. */
  lemma {:induction false} Climb(s: Tree, h: nat, w: Shape, q: Place)
    requires Closed(w) && Unused(w, h, 0) && (forall l: nat, k: nat | l > h && w(l, k) :: k == 0)
    requires q.level < h
    ensures !w(q.level + 1, q.prefix)
    decreases h - q.level
  {
    if w(q.level + 1, q.prefix) {
      assert w(q.level + 1 + 1, q.prefix / 64);
      if q.level + 1 == h { assert Used(w, h, 0, q.prefix); } else { Climb(s, h, w, Place(q.level + 1, q.prefix / 64)); }
    }
  }
}
