/**
 A tree in memory (struct radix_tree_root or struct xarray, and the nodes below it) with the loops over it that
 the radix tree, the IDR and the XArray share.  The ghost parameters say which tree the memory matches.
 */
module RadixRoot {
  import opened RadixState
  import opened RadixMoves
  import opened RadixKeys
  import opened Options
  import opened Words

  /** If the slot on the path to the index is unused, what a new node for it should look like. */
  ghost predicate BareAt(p: Pred, t: Tags, v: Items, index: nat, l: nat, tags: (nat, nat) -> bool) {
    l > 0 && !PathShape(p, index, l + 1)(l, Key(l, index)) ==>
      Bare(PathShape(p, index, l + 1), t, v, Place(l - 1, Key(l, index)), tags)
  }

  /** The node q is on the path to index i. */
  ghost predicate OnPath(s: Tree, h: nat, q: Place, i: nat) {
    s.live(q) && q.level <= h && q.prefix == Key(q.level + 1, i)
  }

  /** What the slot on the path shows, and where it leads. */
  lemma PathSlot(s: Tree, h: nat, w: Shape, t: Tags, v: Items, q: Place, i: nat)
    requires Matches(s, h, w, t, v) && OnPath(s, h, q, i)
    ensures var k := Key(q.level, i);
            && 64 * q.prefix + k % 64 == k && s.node(q).level == q.level
            && s.node(q).slot(k % 64) == Expected(w, v, q.level, k)
            && (forall a | 0 <= a < MAX_TAGS :: s.node(q).tag(a, k % 64) == t(a, q.level, k))
            && (q.level > 0 && w(q.level, k) ==> OnPath(s, h, Place(q.level - 1, k), i))
  {
    hide Matches;
    hide SlotOk;
    hide Key;
    KeyUp(q.level, i);
    LiveNode(s, h, w, t, v, q);
    NodeSlot(s, w, t, v, q, Key(q.level, i) % 64);
    if q.level > 0 && w(q.level, Key(q.level, i)) { ChildLive(s, h, w, t, v, q.level, Key(q.level, i)); }
  }

  lemma LiveNode(s: Tree, h: nat, w: Shape, t: Tags, v: Items, q: Place)
    requires Matches(s, h, w, t, v) && s.live(q)
    ensures NodeOk(s, h, w, t, v, q)
  {
  }

  lemma NodeSlot(s: Tree, w: Shape, t: Tags, v: Items, q: Place, o: nat)
    requires SlotOk(s, w, t, v, q, o)
    ensures s.node(q).slot(o) == Expected(w, v, q.level, 64 * q.prefix + o)
    ensures forall a | 0 <= a < MAX_TAGS :: s.node(q).tag(a, o) == t(a, q.level, 64 * q.prefix + o)
  {
  }

  lemma ChildLive(s: Tree, h: nat, w: Shape, t: Tags, v: Items, l: nat, k: nat)
    requires Matches(s, h, w, t, v) && 0 < l <= h && w(l, k)
    ensures s.live(Place(l - 1, k))
  {
    hide NodeOk;
    var c := Place(l - 1, k);
    assert s.live(c) <==> c.level <= h && w(c.level + 1, c.prefix);
  }

  lemma KeyUp(l: nat, i: nat)
    ensures Key(l + 1, i) == Key(l, i) / 64
  {
  }

  lemma KeyBase(i: nat)
    ensures Key(0, i) == i
  {
  }

  lemma PathStarts(s: Tree, h: nat, w: Shape, t: Tags, v: Items, i: nat)
    requires Matches(s, h, w, t, v)
    ensures i <= MaxIndex(h) ==> OnPath(s, h, Place(h, 0), i)
    ensures i > MaxIndex(h) ==> !w(h + 1, Key(h + 1, i))
  {
    hide NodeOk;
    InTree(h, i);
  }

  function LeafItem(e: Entry): Option<nat> { if e.Item? then Some(e.item) else None }

  lemma LevelOf(s: Tree, h: nat, w: Shape, t: Tags, v: Items, q: Place)
    requires Matches(s, h, w, t, v) && s.live(q)
    ensures s.node(q).level == q.level
  {
    LiveNode(s, h, w, t, v, q);
  }

  lemma MaxIndexGrows(l: nat)
    ensures MaxIndex(l) < MaxIndex(l + 1)
  {
    assert Pow64(l + 2) == 64 * Pow64(l + 1);
  }

  /** Above the root, the path to an index inside the tree adds nothing. */
  lemma TopShape(s: Tree, h: nat, p: Pred, t: Tags, v: Items, index: nat)
    requires Matches(s, h, ShapeOf(p), t, v) && index <= MaxIndex(h)
    ensures Matches(s, h, PathShape(p, index, h + 1), t, v)
  {
    hide NodeOk;
    hide Below;
    var w, w' := ShapeOf(p), PathShape(p, index, h + 1);
    InTree(h, index);
    forall l: nat, k: nat ensures w'(l, k) == w(l, k) {
      if l > h {
        KeyStaysZero(h + 1, l, index);
        ColumnUp(w, h + 1, l);
      }
    }
    MatchesSame(s, h, w, t, v, w', t, v);
  }

  lemma {:induction false} ColumnUp(w: Shape, l: nat, m: nat)
    requires Closed(w) && w(l, 0) && l <= m
    ensures w(m, 0)
    decreases m
  {
    if l < m {
      ColumnUp(w, l, m - 1);
      assert w(m - 1 + 1, 0 / 64);
    }
  }

  /** After adding the slot at level l the path reaches one level further down. */
  lemma PathDown(s: Tree, h: nat, p: Pred, t: Tags, v: Items, index: nat, l: nat)
    requires Matches(s, h, PutShape(PathShape(p, index, l + 1), l, Key(l, index), true), t, v)
    ensures Matches(s, h, PathShape(p, index, l), t, v)
  {
    hide Matches;
    hide Below;
    hide Key;
    var w, w' := PutShape(PathShape(p, index, l + 1), l, Key(l, index), true), PathShape(p, index, l);
    forall x: nat, y: nat ensures w'(x, y) == w(x, y) { }
    MatchesSame(s, h, w, t, v, w', t, v);
  }

  /** A slot in use is already on the path. */
  lemma PathSkip(s: Tree, h: nat, p: Pred, t: Tags, v: Items, index: nat, l: nat)
    requires Matches(s, h, PathShape(p, index, l + 1), t, v) && PathShape(p, index, l + 1)(l, Key(l, index))
    ensures Matches(s, h, PathShape(p, index, l), t, v)
  {
    hide Matches;
    hide Below;
    hide Key;
    var w, w' := PathShape(p, index, l + 1), PathShape(p, index, l);
    forall x: nat, y: nat ensures w'(x, y) == w(x, y) { }
    MatchesSame(s, h, w, t, v, w', t, v);
  }

  /** The path to an index through a node in use adds nothing from that node up. */
  lemma PathJoins(s: Tree, h: nat, p: Pred, t: Tags, v: Items, index: nat, q: Place)
    requires Matches(s, h, ShapeOf(p), t, v) && OnPath(s, h, q, index)
    ensures Matches(s, h, PathShape(p, index, q.level + 1), t, v)
  {
    hide NodeOk;
    hide Below;
    hide Key;
    var w, w' := ShapeOf(p), PathShape(p, index, q.level + 1);
    assert w(q.level + 1, q.prefix);
    forall l: nat, k: nat ensures w'(l, k) == w(l, k) {
      if l >= q.level + 1 { ShapeUp(w, q.level + 1, l, index); }
    }
    MatchesSame(s, h, w, t, v, w', t, v);
  }

  /** Once a node on the path is needed, so is everything above it. */
  lemma PathEnds(s: Tree, h: nat, p: Pred, t: Tags, v: Items, index: nat, l: nat)
    requires Matches(s, h, PathShape(p, index, l + 1), t, v) && Below(p, l + 1, Key(l + 1, index))
    ensures Matches(s, h, ShapeOf(p), t, v)
  {
    hide Matches;
    hide Below;
    hide Key;
    var w, w' := PathShape(p, index, l + 1), ShapeOf(p);
    forall x: nat, k: nat ensures w'(x, k) == w(x, k) {
      if x >= l + 1 { BelowUp(p, l + 1, x, index); }
    }
    MatchesSame(s, h, w, t, v, w', t, v);
  }

  lemma PathUp(s: Tree, h: nat, p: Pred, t: Tags, v: Items, index: nat, q: Place)
    requires q.prefix == Key(q.level + 1, index) && Unused(PathShape(p, index, q.level + 1), q.level, q.prefix)
    requires Matches(s, h, PutShape(PathShape(p, index, q.level + 1), q.level + 1, q.prefix, false), t, v)
    ensures Matches(s, h, PathShape(p, index, q.level + 2), t, v)
  {
    hide Matches;
    hide Below;
    hide Key;
    var m := q.level + 1;
    var u := PathShape(p, index, m);
    var w, w' := PutShape(u, m, q.prefix, false), PathShape(p, index, q.level + 2);
    BelowIs(p, m, q.prefix);
    forall o: nat | o < 64 ensures !BelowDigit(p, m, q.prefix, o) {
      BelowDigitIs(p, q.level, q.prefix, o);
      assert !Used(u, q.level, q.prefix, o);
    }
    forall x: nat, k: nat ensures w'(x, k) == w(x, k) { }
    MatchesSame(s, h, w, t, v, w', t, v);
  }

  /** The count of a node on the path tells whether it is needed. */
  lemma NodeCount(s: Tree, h: nat, p: Pred, t: Tags, v: Items, q: Place, index: nat)
    requires Matches(s, h, PathShape(p, index, q.level + 1), t, v) && OnPath(s, h, q, index)
    ensures s.node(q).count == 0 <==> Unused(PathShape(p, index, q.level + 1), q.level, q.prefix)
    ensures s.node(q).count == 0 <==> !Below(p, q.level + 1, Key(q.level + 1, index))
  {
    hide Matches;
    hide Below;
    hide Key;
    var w, m := PathShape(p, index, q.level + 1), q.level + 1;
    LiveNode(s, h, w, t, v, q);
    CountZero(w, q.level, q.prefix, 64);
    BelowIs(p, m, q.prefix);
    forall o: nat | o < 64 ensures Used(w, q.level, q.prefix, o) <==> BelowDigit(p, m, q.prefix, o) {
      BelowDigitIs(p, q.level, q.prefix, o);
    }
  }

  /** An index with a node on its path lies inside the tree. */
  lemma PathInTree(s: Tree, h: nat, w: Shape, t: Tags, v: Items, q: Place, i: nat)
    requires Matches(s, h, w, t, v) && OnPath(s, h, q, i)
    ensures Key(h + 1, i) == 0
  {
    hide NodeOk;
    hide Key;
    assert w(q.level + 1, q.prefix);
    ShapeUp(w, q.level + 1, h + 1, i);
  }

  lemma {:induction false} ShapeUp(w: Shape, l: nat, m: nat, i: nat)
    requires Closed(w) && l <= m && w(l, Key(l, i))
    ensures w(m, Key(m, i))
    decreases m
  {
    if l < m {
      ShapeUp(w, l, m - 1, i);
      assert w(m - 1 + 1, Key(m - 1, i) / 64);
    }
  }

  lemma {:induction false} BelowUp(p: Pred, l: nat, m: nat, i: nat)
    requires l <= m && Below(p, l, Key(l, i))
    ensures Below(p, m, Key(m, i))
    decreases m
  {
    if l < m {
      BelowUp(p, l, m - 1, i);
      BelowStep(p, m - 1, Key(m - 1, i));
    }
  }

  lemma BelowRoot(s: Tree, h: nat, w: Shape, t: Tags, v: Items)
    requires Matches(s, h, w, t, v)
    ensures w(h + 1, 0)
  {
  }

  /** The parent pointer of q leads on along the path, or q is the root. */
  ghost predicate UpFrom(s: Tree, h: nat, q: Place, i: nat) {
    && (s.node(q).parent.None? <==> q.level == h)
    && (s.node(q).parent.Some? ==> OnPath(s, h, s.node(q).parent.value, i) && s.node(q).parent.value.level == q.level + 1)
    && s.node(q).offset == Key(q.level + 1, i) % 64
  }

  lemma ParentOnPath(s: Tree, h: nat, w: Shape, t: Tags, v: Items, q: Place, i: nat)
    requires Matches(s, h, w, t, v) && OnPath(s, h, q, i)
    ensures UpFrom(s, h, q, i)
  {
    hide Matches;
    hide Key;
    LiveNode(s, h, w, t, v, q);
    if q.level < h {
      KeyUp(q.level + 1, i);
      ParentLive(s, h, w, t, v, q);
    }
  }

  lemma ParentLive(s: Tree, h: nat, w: Shape, t: Tags, v: Items, q: Place)
    requires Matches(s, h, w, t, v) && s.live(q) && q.level < h
    ensures s.live(Place(q.level + 1, q.prefix / 64))
  {
    hide NodeOk;
    assert w(q.level + 1, q.prefix);
    assert w(q.level + 1 + 1, q.prefix / 64);
  }

  function Untagged(g: TagSets, a: nat, i: nat): TagSets { (b: nat, j: nat) => g(b, j) && !(b == a && j == i) }

  function Tagged(g: TagSets, a: nat, i: nat): TagSets { (b: nat, j: nat) => g(b, j) || (b == a && j == i) }

  /** While tag a is being cleared: the bits on the path to the index from level e up are still set. */
  ghost function ClearTags(g: TagSets, a: nat, i: nat, e: nat): Tags {
    (b: nat, l: nat, k: nat) => TagsOf(g)(b, l, k) || (b == a && l >= e && k == Key(l, i))
  }

  lemma LeafTag(g: TagSets, a: nat, i: nat)
    ensures TagsOf(g)(a, 0, i) == g(a, i)
  {
    BelowLeaf(TagPred(g, a), i);
  }

  lemma SameTags(s: Tree, h: nat, w: Shape, v: Items, g: TagSets, g': TagSets)
    requires Matches(s, h, w, TagsOf(g), v) && forall a: nat, i: nat :: g'(a, i) == g(a, i)
    ensures Matches(s, h, w, TagsOf(g'), v)
  {
    hide Matches;
    forall a: nat, l: nat, k: nat ensures TagsOf(g')(a, l, k) == TagsOf(g)(a, l, k) {
      BelowSame(TagPred(g, a), TagPred(g', a), l, k);
    }
    MatchesSame(s, h, w, TagsOf(g), v, w, TagsOf(g'), v);
  }

  lemma ClearStarts(s: Tree, h: nat, w: Shape, v: Items, g: TagSets, a: nat, i: nat)
    requires Matches(s, h, w, TagsOf(g), v) && g(a, i)
    ensures Matches(s, h, w, ClearTags(Untagged(g, a, i), a, i, 0), v)
  {
    hide Matches;
    hide Below;
    hide Key;
    var g' := Untagged(g, a, i);
    var t := ClearTags(g', a, i, 0);
    forall b: nat, l: nat, k: nat ensures t(b, l, k) == TagsOf(g)(b, l, k) {
      assert TagsOf(g)(b, l, k) == Below(TagPred(g, b), l, k) && TagsOf(g')(b, l, k) == Below(TagPred(g', b), l, k);
      if b == a {
        BelowAdd(TagPred(g', a), TagPred(g, a), l, k, i);
      } else {
        BelowSame(TagPred(g, b), TagPred(g', b), l, k);
      }
    }
    MatchesSame(s, h, w, TagsOf(g), v, w, t, v);
  }

  lemma ClearedOne(s: Tree, h: nat, w: Shape, v: Items, g: TagSets, a: nat, i: nat, e: nat)
    requires Matches(s, h, w, PutTags(ClearTags(g, a, i, e), a, e, Key(e, i), false), v) && !TagsOf(g)(a, e, Key(e, i))
    ensures Matches(s, h, w, ClearTags(g, a, i, e + 1), v)
  {
    hide Matches;
    hide Below;
    hide Key;
    var t, t' := PutTags(ClearTags(g, a, i, e), a, e, Key(e, i), false), ClearTags(g, a, i, e + 1);
    forall b: nat, l: nat, k: nat ensures t'(b, l, k) == t(b, l, k) { }
    MatchesSame(s, h, w, t, v, w, t', v);
  }

  /** A node shows a bit of the tag exactly when the slot above it should. */
  lemma AnyIsBelow(s: Tree, h: nat, w: Shape, v: Items, g: TagSets, a: nat, i: nat, q: Place)
    requires a < MAX_TAGS && OnPath(s, h, q, i) && Matches(s, h, w, ClearTags(g, a, i, q.level + 1), v)
    ensures (exists o: nat :: o < 64 && s.node(q).tag(a, o)) <==> TagsOf(g)(a, q.level + 1, Key(q.level + 1, i))
  {
    hide Matches;
    hide Key;
    hide Below;
    hide BelowDigit;
    var p, l, t, m := TagPred(g, a), q.level, ClearTags(g, a, i, q.level + 1), q.level + 1;
    LiveNode(s, h, w, t, v, q);
    forall o: nat | o < 64 ensures s.node(q).tag(a, o) <==> BelowDigit(p, m, q.prefix, o) {
      assert SlotOk(s, w, t, v, q, o);
      BelowDigitIs(p, l, q.prefix, o);
      assert TagsOf(g)(a, l, 64 * q.prefix + o) == Below(TagPred(g, a), l, 64 * q.prefix + o);
      assert t(a, l, 64 * q.prefix + o) == TagsOf(g)(a, l, 64 * q.prefix + o);
    }
    BelowIs(p, m, q.prefix);
    assert TagsOf(g)(a, m, q.prefix) == Below(p, m, q.prefix);
  }

  lemma ClearEnds(s: Tree, h: nat, w: Shape, v: Items, g: TagSets, a: nat, i: nat, e: nat)
    requires Matches(s, h, w, ClearTags(g, a, i, e + 1), v) && TagsOf(g)(a, e + 1, Key(e + 1, i))
    ensures Matches(s, h, w, TagsOf(g), v)
  {
    hide Matches;
    hide Below;
    hide Key;
    var t, t' := ClearTags(g, a, i, e + 1), TagsOf(g);
    forall b: nat, l: nat, k: nat ensures t'(b, l, k) == t(b, l, k) {
      if l >= e + 1 { BelowUp(TagPred(g, a), e + 1, l, i); }
    }
    MatchesSame(s, h, w, t, v, w, t', v);
  }

  lemma ClearRoot(s: Tree, h: nat, w: Shape, v: Items, g: TagSets, a: nat, i: nat)
    requires a < MAX_TAGS && Matches(s, h, w, ClearTags(g, a, i, h + 1), v) && !TagsOf(g)(a, h + 1, Key(h + 1, i)) && Key(h + 1, i) == 0
    ensures Matches(s.(rootTag := PutRoot(s.rootTag, a, false)), h, w, TagsOf(g), v)
  {
    hide Matches;
    hide Below;
    hide Key;
    var t, t' := PutTags(ClearTags(g, a, i, h + 1), a, h + 1, 0, false), TagsOf(g);
    RootBitKeeps(s, h, w, ClearTags(g, a, i, h + 1), v, a, false);
    forall b: nat, l: nat, k: nat | l <= h + 1 ensures t'(b, l, k) == t(b, l, k) { }
    MatchesSame(s.(rootTag := PutRoot(s.rootTag, a, false)), h, w, t, v, w, t', v);
  }

  /** While the FREE tag is being set: the bits on the path to the index are set below level e. */
  ghost function RaiseTags(g: TagSets, i: nat, e: nat): Tags {
    (b: nat, l: nat, k: nat) => TagsOf(g)(b, l, k) || (b == 0 && l < e && k == Key(l, i))
  }

  lemma RaiseStarts(s: Tree, h: nat, w: Shape, v: Items, g: TagSets, i: nat)
    requires Matches(s, h, w, TagsOf(g), v)
    ensures Matches(s, h, w, RaiseTags(g, i, 0), v)
  {
    hide Matches;
    hide Below;
    hide Key;
    var t := RaiseTags(g, i, 0);
    forall b: nat, l: nat, k: nat ensures t(b, l, k) == TagsOf(g)(b, l, k) { }
    MatchesSame(s, h, w, TagsOf(g), v, w, t, v);
  }

  lemma RaiseOne(s: Tree, h: nat, w: Shape, v: Items, g: TagSets, i: nat, e: nat)
    requires Matches(s, h, w, PutTags(RaiseTags(g, i, e), 0, e, Key(e, i), true), v)
    ensures Matches(s, h, w, RaiseTags(g, i, e + 1), v)
  {
    hide Matches;
    hide Below;
    hide Key;
    var t, t' := PutTags(RaiseTags(g, i, e), 0, e, Key(e, i), true), RaiseTags(g, i, e + 1);
    forall b: nat, l: nat, k: nat ensures t'(b, l, k) == t(b, l, k) { }
    MatchesSame(s, h, w, t, v, w, t', v);
  }

  /** Adding a member to tag set 0, seen from a slot. */
  lemma TaggedBelow(g: TagSets, i: nat, b: nat, l: nat, k: nat)
    ensures TagsOf(Tagged(g, 0, i))(b, l, k) == (TagsOf(g)(b, l, k) || (b == 0 && k == Key(l, i)))
  {
    hide Below;
    hide Key;
    var g' := Tagged(g, 0, i);
    assert TagsOf(g)(b, l, k) == Below(TagPred(g, b), l, k) && TagsOf(g')(b, l, k) == Below(TagPred(g', b), l, k);
    if b == 0 {
      BelowAdd(TagPred(g, 0), TagPred(g', 0), l, k, i);
    } else {
      BelowSame(TagPred(g, b), TagPred(g', b), l, k);
    }
  }

  /** A bit that is set already is set all the way up. */
  lemma RaiseEnds(s: Tree, h: nat, w: Shape, v: Items, g: TagSets, i: nat, e: nat)
    requires Matches(s, h, w, RaiseTags(g, i, e), v) && RaiseTags(g, i, e)(0, e, Key(e, i))
    ensures Matches(s, h, w, TagsOf(Tagged(g, 0, i)), v)
  {
    hide Matches;
    hide Below;
    hide Key;
    var t, t' := RaiseTags(g, i, e), TagsOf(Tagged(g, 0, i));
    forall b: nat, l: nat, k: nat ensures t'(b, l, k) == t(b, l, k) {
      TaggedBelow(g, i, b, l, k);
      if l >= e { BelowUp(TagPred(g, 0), e, l, i); }
    }
    MatchesSame(s, h, w, t, v, w, t', v);
  }

  lemma RaiseRoot(s: Tree, h: nat, w: Shape, v: Items, g: TagSets, i: nat)
    requires Matches(s, h, w, RaiseTags(g, i, h + 1), v) && Key(h + 1, i) == 0
    ensures Matches(s.(rootTag := PutRoot(s.rootTag, 0, true)), h, w, TagsOf(Tagged(g, 0, i)), v)
  {
    hide Matches;
    hide Below;
    hide Key;
    var t, t' := PutTags(RaiseTags(g, i, h + 1), 0, h + 1, 0, true), TagsOf(Tagged(g, 0, i));
    RootBitKeeps(s, h, w, RaiseTags(g, i, h + 1), v, 0, true);
    forall b: nat, l: nat, k: nat | l <= h + 1 ensures t'(b, l, k) == t(b, l, k) { TaggedBelow(g, i, b, l, k); }
    MatchesSame(s.(rootTag := PutRoot(s.rootTag, 0, true)), h, w, t, v, w, t', v);
  }

  lemma LiveLevel(s: Tree, h: nat, w: Shape, t: Tags, v: Items, q: Place)
    requires Matches(s, h, w, t, v) && s.live(q)
    ensures q.level <= h
  {
    hide NodeOk;
  }

  // ---------------------------------------------------------------------------
  // Trees whose shape is that of their items

  lemma NothingBelow(v: Items, l: nat, i: nat)
    requires !ShapeOf(OccOf(v))(l, Key(l, i))
    ensures v(i).None?
  {
    if v(i).Some? { BelowHit(OccOf(v), l, i); }
  }

  /** A map with only index 0 has the shape of a single column. */
  lemma PotShape(s: Tree, v: Items, g: TagSets, x: nat)
    requires Matches(s, 0, (l: nat, k: nat) => k == 0, TagsOf(g), PutItem(NoItems(), 0, Some(x)))
    requires v(0) == Some(x) && forall i: nat | i != 0 :: v(i).None?
    ensures Matches(s, 0, ShapeOf(OccOf(v)), TagsOf(g), v)
  {
    hide Matches;
    var w := (l: nat, k: nat) => k == 0;
    forall l: nat, k: nat ensures ShapeOf(OccOf(v))(l, k) == w(l, k) {
      KeyOfZero(l);
      if k == 0 { BelowHit(OccOf(v), l, 0); }
      if Below(OccOf(v), l, k) { var i := BelowWitness(OccOf(v), l, k); }
    }
    MatchesSame(s, 0, w, TagsOf(g), PutItem(NoItems(), 0, Some(x)), ShapeOf(OccOf(v)), TagsOf(g), v);
  }

  lemma UnusedLeaf(v: Items, index: nat)
    ensures PathShape(OccOf(v), index, 1)(0, index) == v(index).Some?
  {
    BelowLeaf(OccOf(v), index);
  }

  /** The whole path and the item: the shape of the larger map. */
  lemma Completed(s: Tree, h: nat, v: Items, g: TagSets, index: nat, item: nat)
    requires Matches(s, h, PutShape(PathShape(OccOf(v), index, 1), 0, index, true), TagsOf(g), PutItem(v, index, Some(item)))
    ensures Matches(s, h, ShapeOf(OccOf(PutItem(v, index, Some(item)))), TagsOf(g), PutItem(v, index, Some(item)))
  {
    hide Matches;
    hide Below;
    hide Key;
    var v' := PutItem(v, index, Some(item));
    var w, w' := PutShape(PathShape(OccOf(v), index, 1), 0, index, true), ShapeOf(OccOf(v'));
    KeyBase(index);
    forall l: nat, k: nat ensures w'(l, k) == w(l, k) { BelowAdd(OccOf(v), OccOf(v'), l, k, index); }
    MatchesSame(s, h, w, TagsOf(g), v', w', TagsOf(g), v');
  }

  lemma SlotInUse(v: Items, l: nat, i: nat)
    requires v(i).Some?
    ensures ShapeOf(OccOf(v))(l, Key(l, i))
  {
    BelowHit(OccOf(v), l, i);
  }

  lemma SlotGone(s: Tree, h: nat, v: Items, g: TagSets, index: nat)
    requires v(index).Some? && Matches(s, h, PutShape(ShapeOf(OccOf(v)), 0, index, false), TagsOf(g), PutItem(v, index, None))
    ensures Matches(s, h, PathShape(OccOf(PutItem(v, index, None)), index, 1), TagsOf(g), PutItem(v, index, None))
  {
    hide Matches;
    hide Below;
    hide Key;
    var v' := PutItem(v, index, None);
    var w, w' := PutShape(ShapeOf(OccOf(v)), 0, index, false), PathShape(OccOf(v'), index, 1);
    KeyBase(index);
    BelowLeaf(OccOf(v'), index);
    forall l: nat, k: nat ensures w'(l, k) == w(l, k) { BelowAdd(OccOf(v'), OccOf(v), l, k, index); }
    MatchesSame(s, h, w, TagsOf(g), v', w', TagsOf(g), v');
  }

  class Root {
    var head: Entry
    var rootTag: nat -> bool
    var node: Place -> Node
    ghost var live: Place -> bool

    ghost function State(): Tree
      reads this
    {
      Tree(head, rootTag, node, live)
    }

    constructor (rootTag: nat -> bool)
      ensures Bald(State(), Empty) && this.rootTag == rootTag
    {
      this.rootTag := rootTag;
      head, live := Empty, (_ => false);
      node := (_ => Node(0, 0, None, 0, NoSlots(), (a, o) => false));
    }

    /** The walk to the slot of an index that several functions begin with; without a leaf, where it stopped. */
    method Walk(index: nat, ghost h: nat, ghost w: Shape, ghost t: Tags, ghost v: Items)
      returns (q: Option<Place>, e: Entry, ghost stop: nat)
      requires head == Ptr(Place(h, 0)) && Matches(State(), h, w, t, v)
      ensures q.Some? ==> q.value.level == 0 && OnPath(State(), h, q.value, index) && e == ToEntry(v(index))
      ensures q.None? ==> e == Empty && !w(stop, Key(stop, index))
    {
      hide Matches;
      hide Key;
      var p := head.place;
      PathStarts(State(), h, w, t, v, index);
      if index > MaxIndex(p.level) {
        return None, Empty, h + 1;
      }
      while true
        invariant OnPath(State(), h, p, index)
        decreases p.level
      {
        PathSlot(State(), h, w, t, v, p, index);
        e := node(p).slot(Key(p.level, index) % 64);
        if node(p).level == 0 {
          KeyBase(index);
          return Some(p), e, 0;
        }
        if !e.Ptr? {
          return None, Empty, p.level;
        }
        p := e.place;
      }
    }

    // -------------------------------------------------------------------------
    // Growing

    /** A node above the root node, with the root's content in its first slot. */
    method GrowRoot(h: nat, tags: (nat, nat) -> bool, rootTag': nat -> bool, ghost w: Shape, ghost t: Tags, ghost v: Items)
      requires head == Ptr(Place(h, 0)) && Matches(State(), h, w, t, v) && TagsAre(t, h + 1, 0, tags)
      requires forall a: nat | a < MAX_TAGS :: rootTag'(a) == t(a, h + 2, 0)
      modifies this
      ensures head == Ptr(Place(h + 1, 0)) && Matches(State(), h + 1, w, t, v)
    {
      hide Matches;
      GrownKeeps(State(), h, w, t, v, tags, rootTag');
      var q, c := Place(h + 1, 0), head.place;
      node := PutNode(PutNode(node, c, node(c).(parent := Some(q))), q, Node(h + 1, 0, None, 1, OneSlot(head), tags));
      head := Ptr(q);
      rootTag := rootTag';
      live := PutLive(live, q, true);
      assert State() == Grown(old(State()), h, tags, rootTag');
    }

    /** The item in the root moves into the first slot of a new leaf. */
    method Pot(tags: (nat, nat) -> bool, rootTag': nat -> bool)
      requires head.Item?
      modifies this
      ensures State() == Potted(old(State()), tags, rootTag')
    {
      var q := Place(0, 0);
      node := PutNode(node, q, Node(0, 0, None, 1, OneSlot(head), tags));
      head := Ptr(q);
      rootTag := rootTag';
      live := PutLive(live, q, true);
    }

    /** The first node of an empty tree. */
    method Plant(h: nat, tags: (nat, nat) -> bool)
      requires head.Empty?
      modifies this`head, this`node, this`live
      ensures State() == Planted(old(State()), h, tags)
    {
      var q := Place(h, 0);
      node := PutNode(node, q, Node(h, 0, None, 0, NoSlots(), tags));
      head := Ptr(q);
      live := PutLive(live, q, true);
    }

    /** Go a level down on the path to the index, adding a child node with the given tags if there is none. */
    method Down(index: nat, q: Place, tags: (nat, nat) -> bool, ghost h: nat, ghost p: Pred, ghost t: Tags, ghost v: Items)
      returns (c: Place)
      requires OnPath(State(), h, q, index) && q.level > 0 && BareAt(p, t, v, index, q.level, tags)
      requires Matches(State(), h, PathShape(p, index, q.level + 1), t, v)
      modifies this`node, this`live
      ensures OnPath(State(), h, c, index) && c.level == q.level - 1
      ensures Matches(State(), h, PathShape(p, index, c.level + 1), t, v)
      ensures Below(p, q.level, Key(q.level, index)) ==> State() == old(State())
    {
      hide Matches;
      hide Below;
      hide Key;
      hide Bare;
      ghost var w := PathShape(p, index, q.level + 1);
      PathSlot(State(), h, w, t, v, q, index);
      var o := Key(q.level, index) % 64;
      if node(q).slot(o).Empty? {
        c := Place(q.level - 1, Key(q.level, index));
        ChildKeeps(State(), h, w, t, v, q, o, tags);
        PathDown(WithChild(State(), q, o, tags), h, p, t, v, index, q.level);
        var n := node(q);
        node := PutNode(PutNode(node, c, Node(c.level, o, Some(q), 0, NoSlots(), tags)),
                        q, n.(slot := PutSlot(n.slot, o, Ptr(c)), count := n.count + 1));
        live := PutLive(live, c, true);
        assert State() == WithChild(old(State()), q, o, tags);
        ChildLive(State(), h, PathShape(p, index, q.level), t, v, q.level, Key(q.level, index));
      } else {
        PathSkip(State(), h, p, t, v, index, q.level);
        c := node(q).slot(o).place;
      }
    }

    /** From a node on the path down to the leaf of the index. */
    method DownToLeaf(from: Place, index: nat, tags: (nat, nat) -> bool, ghost h: nat, ghost p: Pred, ghost t: Tags, ghost v: Items)
      returns (q: Place)
      requires OnPath(State(), h, from, index) && Matches(State(), h, PathShape(p, index, from.level + 1), t, v)
      requires forall l: nat :: BareAt(p, t, v, index, l, tags)
      modifies this`node, this`live
      ensures q.level == 0 && OnPath(State(), h, q, index) && Matches(State(), h, PathShape(p, index, 1), t, v)
      ensures p(index) ==> State() == old(State())
    {
      hide Matches;
      hide Below;
      hide Key;
      q := from;
      LevelOf(State(), h, PathShape(p, index, q.level + 1), t, v, q);
      while node(q).level > 0
        invariant OnPath(State(), h, q, index) && node(q).level == q.level
        invariant Matches(State(), h, PathShape(p, index, q.level + 1), t, v)
        invariant p(index) ==> State() == old(State())
        decreases q.level
      {
        if p(index) { BelowHit(p, q.level, index); }
        q := Down(index, q, tags, h, p, t, v);
        LevelOf(State(), h, PathShape(p, index, q.level + 1), t, v, q);
      }
    }

    // -------------------------------------------------------------------------
    // Tags

    /** any_tag_set */
    method AnyTagSet(q: Place, tag: nat) returns (r: bool)
      ensures r <==> exists o: nat :: o < 64 && node(q).tag(tag, o)
    {
      var o := 0;
      while o < 64
        invariant o <= 64 && forall x: nat | x < o :: !node(q).tag(tag, x)
      {
        if node(q).tag(tag, o) {
          return true;
        }
        o := o + 1;
      }
      return false;
    }

    /** The loop of node_tag_clear, when the bit of the leaf is set; g are the tag sets to arrive at. */
    method ClearUp(leaf: Place, tag: nat, index: nat, ghost h: nat, ghost w: Shape, ghost g: TagSets, ghost v: Items)
      requires tag < MAX_TAGS && leaf.level == 0 && OnPath(State(), h, leaf, index)
      requires Matches(State(), h, w, ClearTags(g, tag, index, 0), v)
      requires !TagsOf(g)(tag, 0, Key(0, index))
      modifies this`node, this`rootTag
      ensures Matches(State(), h, w, TagsOf(g), v)
    {
      hide Matches;
      hide Below;
      hide Key;
      hide ClearTags;
      hide TagsOf;
      var q := Some(leaf);
      var offset := Key(0, index) % 64;
      ghost var e := 0;
      PathInTree(State(), h, w, ClearTags(g, tag, index, 0), v, leaf, index);
      while q.Some?
        invariant Matches(State(), h, w, ClearTags(g, tag, index, e), v) && e <= h + 1
        invariant q.Some? <==> e <= h
        invariant q.Some? ==> OnPath(State(), h, q.value, index) && q.value.level == e && offset == Key(e, index) % 64
        invariant !TagsOf(g)(tag, e, Key(e, index))
        decreases h + 1 - e
      {
        var more := ClearUpOne(q.value, offset, tag, index, h, e, w, g, v);
        if !more {
          return;
        }
        offset, q, e := node(q.value).offset, node(q.value).parent, e + 1;
      }
      ClearRoot(State(), h, w, v, g, tag, index);
      rootTag := PutRoot(rootTag, tag, false);
    }

    /** One turn of node_tag_clear: whether to go on with the parent. */
    method ClearUpOne(q: Place, offset: nat, tag: nat, index: nat, ghost h: nat, ghost e: nat,
                      ghost w: Shape, ghost g: TagSets, ghost v: Items) returns (more: bool)
      requires tag < MAX_TAGS && OnPath(State(), h, q, index) && q.level == e && offset == Key(e, index) % 64
      requires Matches(State(), h, w, ClearTags(g, tag, index, e), v)
      requires !TagsOf(g)(tag, e, Key(e, index))
      modifies this`node
      ensures !more ==> Matches(State(), h, w, TagsOf(g), v)
      ensures more ==> Matches(State(), h, w, ClearTags(g, tag, index, e + 1), v)
      ensures more ==> !TagsOf(g)(tag, e + 1, Key(e + 1, index)) && UpFrom(State(), h, q, index)
    {
      hide Matches;
      hide Below;
      hide Key;
      ghost var t := ClearTags(g, tag, index, e);
      PathSlot(State(), h, w, t, v, q, index);
      BitKeeps(State(), h, w, t, v, q, tag, offset, false);
      node := PutNode(node, q, node(q).(tag := PutBit(node(q).tag, tag, offset, false)));
      assert State() == WithBit(old(State()), q, tag, offset, false);
      ClearedOne(State(), h, w, v, g, tag, index, e);
      var any := AnyTagSet(q, tag);
      AnyIsBelow(State(), h, w, v, g, tag, index, q);
      if any {
        ClearEnds(State(), h, w, v, g, tag, index, e);
      } else {
        ParentOnPath(State(), h, w, ClearTags(g, tag, index, e + 1), v, q, index);
      }
      return !any;
    }

    /** node_tag_clear or xas_clear_mark at a leaf slot; g are the tag sets before.  Only the first test of a bit can fail. */
    method ClearTag(leaf: Place, tag: nat, index: nat, ghost h: nat, ghost w: Shape, ghost g: TagSets, ghost v: Items)
      requires tag < MAX_TAGS && leaf.level == 0 && OnPath(State(), h, leaf, index) && Matches(State(), h, w, TagsOf(g), v)
      modifies this`node, this`rootTag
      ensures Matches(State(), h, w, TagsOf(Untagged(g, tag, index)), v)
    {
      hide Matches;
      hide Below;
      hide Key;
      ghost var g' := Untagged(g, tag, index);
      PathSlot(State(), h, w, TagsOf(g), v, leaf, index);
      KeyBase(index);
      LeafTag(g, tag, index);
      if !node(leaf).tag(tag, Key(0, index) % 64) {
        SameTags(State(), h, w, v, g, g');
        return;
      }
      ClearStarts(State(), h, w, v, g, tag, index);
      LeafTag(g', tag, index);
      ClearUp(leaf, tag, index, h, w, g', v);
    }

    /** node_tag_set, starting at a leaf; g are the tag sets before. */
    method RaiseUp(leaf: Place, index: nat, ghost h: nat, ghost w: Shape, ghost g: TagSets, ghost v: Items)
      requires leaf.level == 0 && OnPath(State(), h, leaf, index)
      requires Matches(State(), h, w, TagsOf(g), v)
      modifies this`node, this`rootTag
      ensures Matches(State(), h, w, TagsOf(Tagged(g, 0, index)), v)
    {
      hide Matches;
      hide Below;
      hide Key;
      RaiseStarts(State(), h, w, v, g, index);
      var q := Some(leaf);
      var offset := Key(0, index) % 64;
      ghost var e := 0;
      PathInTree(State(), h, w, RaiseTags(g, index, 0), v, leaf, index);
      while q.Some?
        invariant Matches(State(), h, w, RaiseTags(g, index, e), v) && e <= h + 1
        invariant q.Some? <==> e <= h
        invariant q.Some? ==> OnPath(State(), h, q.value, index) && q.value.level == e && offset == Key(e, index) % 64
        decreases h + 1 - e
      {
        ghost var t := RaiseTags(g, index, e);
        var p := q.value;
        PathSlot(State(), h, w, t, v, p, index);
        ParentOnPath(State(), h, w, t, v, p, index);
        if node(p).tag(0, offset) {
          RaiseEnds(State(), h, w, v, g, index, e);
          return;
        }
        BitKeeps(State(), h, w, t, v, p, 0, offset, true);
        RaiseOne(WithBit(State(), p, 0, offset, true), h, w, v, g, index, e);
        var n := node(p);
        node := PutNode(node, p, n.(tag := PutBit(n.tag, 0, offset, true)));
        offset, q, e := n.offset, n.parent, e + 1;
      }
      RaiseRoot(State(), h, w, v, g, index);
      rootTag := PutRoot(rootTag, 0, true);
    }

    // -------------------------------------------------------------------------
    // Pruning

    /** An empty node goes out of its parent. */
    method DropUp(q: Place, index: nat, ghost h: nat, ghost occ: Pred, ghost t: Tags, ghost v: Items) returns (p: Place)
      requires OnPath(State(), h, q, index) && q.level < h && UpFrom(State(), h, q, index)
      requires Matches(State(), h, PathShape(occ, index, q.level + 1), t, v)
      requires Unused(PathShape(occ, index, q.level + 1), q.level, q.prefix)
      modifies this`node, this`live
      ensures OnPath(State(), h, p, index) && p.level == q.level + 1
      ensures Matches(State(), h, PathShape(occ, index, p.level + 1), t, v)
    {
      hide Matches;
      hide Below;
      hide Key;
      ghost var w := PathShape(occ, index, q.level + 1);
      p := node(q).parent.value;
      var o := node(q).offset;
      PathSlot(State(), h, w, t, v, p, index);
      DropKeeps(State(), h, w, t, v, p, o);
      PathUp(WithoutChild(State(), p, o), h, occ, t, v, index, q);
      node := PutNode(node, p, node(p).(slot := PutSlot(node(p).slot, o, Empty), count := node(p).count - 1));
      live := PutLive(live, q, false);
      assert State() == WithoutChild(old(State()), p, o);
    }

    /** delete_node up to its end: the first node on the way up that is still needed, or None if even the root is empty. */
    method PruneUp(leaf: Place, index: nat, ghost h: nat, ghost p: Pred, ghost t: Tags, ghost v: Items) returns (r: Option<Place>)
      requires leaf.level == 0 && OnPath(State(), h, leaf, index) && Matches(State(), h, PathShape(p, index, 1), t, v)
      modifies this`node, this`live
      ensures r.Some? ==> Matches(State(), h, ShapeOf(p), t, v) && OnPath(State(), h, r.value, index)
      ensures r.Some? ==> Below(p, r.value.level + 1, Key(r.value.level + 1, index)) && (r.value.level == h ==> r.value.prefix == 0)
      ensures r.None? ==> Matches(State(), h, PathShape(p, index, h + 1), t, v) && Unused(PathShape(p, index, h + 1), h, 0)
    {
      hide Matches;
      hide Below;
      hide Key;
      var q := leaf;
      while true
        invariant OnPath(State(), h, q, index) && Matches(State(), h, PathShape(p, index, q.level + 1), t, v)
        decreases h - q.level
      {
        ghost var w := PathShape(p, index, q.level + 1);
        NodeCount(State(), h, p, t, v, q, index);
        PathInTree(State(), h, w, t, v, q, index);
        ParentOnPath(State(), h, w, t, v, q, index);
        if node(q).count != 0 {
          PathEnds(State(), h, p, t, v, index, q.level);
          return Some(q);
        }
        if node(q).parent.None? {
          return None;
        }
        q := DropUp(q, index, h, p, t, v);
      }
    }

    /** The root node goes away. */
    method Fell(ghost h: nat, head': Entry, rootTag': nat -> bool)
      requires head == Ptr(Place(h, 0))
      modifies this`head, this`rootTag, this`live
      ensures State() == Felled(old(State()), h, head', rootTag')
    {
      live := PutLive(live, head.place, false);
      head := head';
      rootTag := rootTag';
    }

    /** One turn of radix_tree_shrink: the root's only child takes its place. */
    method ShrinkOnce(ghost h: nat, rootTag': nat -> bool, ghost w: Shape, ghost t: Tags, ghost v: Items)
      requires head == Ptr(Place(h, 0)) && h > 0 && Matches(State(), h, w, t, v)
      requires node(Place(h, 0)).count == 1 && node(Place(h, 0)).slot(0) != Empty
      requires forall a: nat | a < MAX_TAGS :: rootTag'(a) == t(a, h, 0)
      modifies this
      ensures head == Ptr(Place(h - 1, 0)) && Matches(State(), h - 1, w, t, v)
    {
      hide Matches;
      RootFacts(State(), h, w, t, v);
      ShrunkKeeps(State(), h, w, t, v, rootTag');
      var q := head.place;
      var child := node(q).slot(0);
      var c := child.place;
      node := PutNode(node, c, node(c).(parent := None));
      live := PutLive(live, q, false);
      head := child;
      rootTag := rootTag';
      assert State() == Shrunk(old(State()), h, rootTag');
    }
  }
}
