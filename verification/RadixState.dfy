/**
 The memory of a radix tree (kernel/lib/radix-tree.c) and its elementary changes.

 A node is named by the place it is allocated for: its level (shift / 6) and the index prefix it covers.
 Slot `o` of the node at (level, prefix) has the key 64 * prefix + o and stands for all indices that, shifted
 right by `level` digits of six bits, give that key.  All pointers (slots, parents, the root) are explicit.
 */
module RadixState {
  import opened Options

  const MAX_TAGS: nat := 3

  datatype Place = Place(level: nat, prefix: nat)

  datatype Entry = Empty | Item(item: nat) | Ptr(place: Place)

  /** struct radix_tree_node */
  datatype Node = Node(level: nat, offset: nat, parent: Option<Place>, count: nat, slot: nat -> Entry, tag: (nat, nat) -> bool)

  datatype Tree = Tree(head: Entry, rootTag: nat -> bool, node: Place -> Node, live: Place -> bool)

  /** Which slots are in use, by level and key; which tags are set, by tag, level and key; what is stored. */
  type Shape = (nat, nat) -> bool
  type Tags = (nat, nat, nat) -> bool
  type Items = nat -> Option<nat>

  function PutNode(f: Place -> Node, q: Place, n: Node): Place -> Node { (x: Place) => if x == q then n else f(x) }

  function PutLive(f: Place -> bool, q: Place, b: bool): Place -> bool { (x: Place) => if x == q then b else f(x) }

  function PutSlot(f: nat -> Entry, o: nat, e: Entry): nat -> Entry { (x: nat) => if x == o then e else f(x) }

  function PutBit(f: (nat, nat) -> bool, t: nat, o: nat, b: bool): (nat, nat) -> bool {
    (u: nat, x: nat) => if u == t && x == o then b else f(u, x)
  }

  function PutRoot(f: nat -> bool, t: nat, b: bool): nat -> bool { (u: nat) => if u == t then b else f(u) }

  function PutShape(w: Shape, l: nat, k: nat, b: bool): Shape { (x: nat, y: nat) => if x == l && y == k then b else w(x, y) }

  function PutTags(t: Tags, a: nat, l: nat, k: nat, b: bool): Tags {
    (u: nat, x: nat, y: nat) => if u == a && x == l && y == k then b else t(u, x, y)
  }

  function PutItem(v: Items, i: nat, x: Option<nat>): Items { (j: nat) => if j == i then x else v(j) }

  // ---------------------------------------------------------------------------
  // Counting slots

  ghost predicate Used(w: Shape, l: nat, p: nat, o: nat) { w(l, 64 * p + o) }

  /** How many of the first n slots of the node at (l, p) are in use. */
  ghost function Count(w: Shape, l: nat, p: nat, n: nat): nat {
    if n == 0 then 0 else Count(w, l, p, n - 1) + if Used(w, l, p, n - 1) then 1 else 0
  }

  lemma {:induction false} CountFrame(w: Shape, w': Shape, l: nat, p: nat, n: nat)
    requires forall o: nat | o < n :: Used(w', l, p, o) == Used(w, l, p, o)
    ensures Count(w', l, p, n) == Count(w, l, p, n)
  {
    if n > 0 { CountFrame(w, w', l, p, n - 1); }
  }

  lemma {:induction false} CountPut(w: Shape, l: nat, p: nat, n: nat, o: nat, b: bool)
    requires o < n && Used(w, l, p, o) != b
    ensures Count(PutShape(w, l, 64 * p + o, b), l, p, n) == Count(w, l, p, n) + (if b then 1 else -1)
  {
    if o == n - 1 {
      CountFrame(w, PutShape(w, l, 64 * p + o, b), l, p, n - 1);
    } else {
      CountPut(w, l, p, n - 1, o, b);
    }
  }

  lemma {:induction false} CountZero(w: Shape, l: nat, p: nat, n: nat)
    ensures Count(w, l, p, n) == 0 <==> forall o: nat | o < n :: !Used(w, l, p, o)
  {
    if n > 0 { CountZero(w, l, p, n - 1); }
  }

  lemma {:induction false} CountOne(w: Shape, l: nat, p: nat, n: nat, o: nat)
    requires o < n && Used(w, l, p, o)
    ensures Count(w, l, p, n) == 1 <==> forall x: nat | x < n && x != o :: !Used(w, l, p, x)
    ensures Count(w, l, p, n) >= 1
  {
    var w' := PutShape(w, l, 64 * p + o, false);
    CountPut(w, l, p, n, o, false);
    CountZero(w', l, p, n);
    assert forall x: nat | x < n :: Used(w', l, p, x) == (Used(w, l, p, x) && x != o);
  }

  // ---------------------------------------------------------------------------
  // A tree of height h + 1 that has exactly the slots w, tags t and items v

  function ToEntry(x: Option<nat>): Entry { if x.None? then Empty else Item(x.value) }

  ghost function Expected(w: Shape, v: Items, l: nat, k: nat): Entry {
    if l == 0 then ToEntry(v(k)) else if w(l, k) then Ptr(Place(l - 1, k)) else Empty
  }

  ghost predicate SlotOk(s: Tree, w: Shape, t: Tags, v: Items, q: Place, o: nat) {
    var k := 64 * q.prefix + o;
    && s.node(q).slot(o) == Expected(w, v, q.level, k)
    && forall a | 0 <= a < MAX_TAGS :: s.node(q).tag(a, o) == t(a, q.level, k)
  }

  ghost predicate NodeOk(s: Tree, h: nat, w: Shape, t: Tags, v: Items, q: Place) {
    var r := s.node(q);
    && r.level == q.level && r.offset == q.prefix % 64
    && r.parent == (if q.level == h then None else Some(Place(q.level + 1, q.prefix / 64)))
    && r.count == Count(w, q.level, q.prefix, 64)
    && forall o: nat | o < 64 :: SlotOk(s, w, t, v, q, o)
  }

  /** A slot in use is in a node that is in use. */
  ghost predicate Closed(w: Shape) { forall l: nat, k: nat | w(l, k) :: w(l + 1, k / 64) }

  ghost predicate Matches(s: Tree, h: nat, w: Shape, t: Tags, v: Items) {
    && s.head == Ptr(Place(h, 0)) && w(h + 1, 0)
    && Closed(w) && (forall l: nat, k: nat | l > h && w(l, k) :: k == 0)
    && (forall a | 0 <= a < MAX_TAGS :: s.rootTag(a) == t(a, h + 1, 0))
    && (forall q: Place :: s.live(q) <==> q.level <= h && w(q.level + 1, q.prefix))
    && (forall q: Place | s.live(q) :: NodeOk(s, h, w, t, v, q))
  }
}
