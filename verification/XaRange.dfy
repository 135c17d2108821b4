/** How xa_store_range of kernel/lib/xarray.c cuts a range of indices into entries of the array. */
module XaRange {
  import opened Words

  const XA_CHUNK_MASK: nat := 63

  /** One entry: it stands at `index`, in a slot at the given level, with `sibs` sibling slots behind it. */
  datatype Block = Block(index: nat, level: nat, sibs: nat)

  /** xas_size */
  function Size(b: Block): nat { (b.sibs + 1) * Pow64(b.level) }

  /** The block starts on a slot boundary and its slots are in one node. */
  ghost predicate InOneNode(b: Block) {
    exists slot: nat :: b.index == slot * Pow64(b.level) && slot % 64 + b.sibs <= 63
  }

  /** Neither a slot of the next level nor one more sibling would fit. */
  ghost predicate WidestAt(b: Block, slot: nat, last: nat) {
    && b.index == slot * Pow64(b.level) && slot % 64 + b.sibs <= 63
    && (slot % 64 == 0 ==> b.index + 64 * Pow64(b.level) - 1 > last)
    && (slot % 64 + b.sibs < 63 ==> b.index + (b.sibs + 2) * Pow64(b.level) - 1 > last)
  }

  ghost predicate Widest(b: Block, last: nat) { exists slot: nat :: WidestAt(b, slot, last) }

  ghost predicate Fits(b: Block, first: nat, last: nat) {
    b.index == first && first + Size(b) - 1 <= last && InOneNode(b)
  }

  // ---------------------------------------------------------------------------
  // Arithmetic of one turn

  lemma Regroup(a: nat, p: nat)
    ensures (64 * a) * p == a * (64 * p)
  {
  }

  lemma SplitDigit(s: nat, p: nat)
    ensures s * p == s / 64 * (64 * p) + s % 64 * p
  {
    var q, r := s / 64, s % 64;
    assert s == 64 * q + r;
    assert (64 * q + r) * p == 64 * q * p + r * p;
    Regroup(q, p);
  }

  lemma DigitBound(r: nat, low: nat, p: nat)
    requires r < 64 && low < p
    ensures r * p + low < 64 * p
    ensures r * p + low == 64 * p - 1 <==> r == 63 && low == p - 1
  {
    if r == 63 {
    } else {
      assert r * p <= 62 * p;
    }
  }

  lemma MulLe(a: nat, b: nat, p: nat)
    requires a <= b
    ensures a * p <= b * p
  {
  }

  /** The word size is a whole number of slots at every level that fits. */
  lemma {:induction false} WordSlots(k: nat) returns (w: nat)
    requires k <= 10
    ensures w * Pow64(k) == WORD
    decreases 10 - k
  {
    if k == 10 {
      assert Pow64(2) == 64 * Pow64(1) && Pow64(4) == 64 * Pow64(3) && Pow64(6) == 64 * Pow64(5) && Pow64(8) == 64 * Pow64(7);
      w := 16;
    } else {
      var v := WordSlots(k + 1);
      Regroup(v, Pow64(k));
      w := 64 * v;
    }
  }

  /** Multiples of p below WORD leave room for one more. */
  lemma NextMultiple(a: nat, w: nat, p: nat)
    requires a * p < w * p
    ensures (a + 1) * p <= w * p
  {
    if a >= w { MulLe(w, a, p); }
    MulLe(a + 1, w, p);
  }

  /** After `level` turns: f and sibs are first and last - first shifted, and offset is 63 if only ones were dropped. */
  ghost predicate Shifted(f: nat, sibs: nat, offset: nat, low: nat, level: nat, first: nat, last: nat) {
    && first <= last && f * Pow64(level) == first && sibs * Pow64(level) + low == last - first
    && low < Pow64(level) && offset <= 63 && (offset == 63 <==> low == Pow64(level) - 1)
    && Pow64(level) <= last - first + 1
  }

  lemma Turn(f: nat, sibs: nat, offset: nat, low: nat, level: nat, first: nat, last: nat)
    requires Shifted(f, sibs, offset, low, level, first, last)
    requires f % 64 == 0 && sibs >= 63 && (sibs == 63 ==> offset == 63)
    ensures Shifted(f / 64, sibs / 64, if offset == 63 then sibs % 64 else offset, sibs % 64 * Pow64(level) + low, level + 1,
                    first, last)
  {
    var p := Pow64(level);
    assert Pow64(level + 1) == 64 * p;
    TurnArith(f, sibs, low, p, first, last);
    DigitBound(sibs % 64, low, p);
    TurnRoom(sibs, low, p, last - first);
  }

  lemma TurnArith(f: nat, sibs: nat, low: nat, p: nat, first: nat, last: nat)
    requires first <= last && f * p == first && sibs * p + low == last - first && f % 64 == 0
    ensures f / 64 * (64 * p) == first && sibs / 64 * (64 * p) + (sibs % 64 * p + low) == last - first
  {
    assert f == 64 * (f / 64);
    Regroup(f / 64, p);
    SplitDigit(sibs, p);
  }

  /** A slot of the next level still fits: there are 64 of this level, or exactly enough. */
  lemma TurnRoom(sibs: nat, low: nat, p: nat, n: nat)
    requires sibs * p + low == n && sibs >= 63 && (sibs == 63 ==> low == p - 1)
    ensures 64 * p <= n + 1
  {
    if sibs > 63 { MulLe(64, sibs, p); }
  }

  /**
   xas_set_range: the entry to store next.  The last test of the source computes
   ((first + sibs + 1) << shift) - 1 in 64 bits, which may wrap.
   */
  method SetRange(first: nat, last: nat) returns (b: Block)
    requires first <= last < WORD
    ensures Fits(b, first, last) && Widest(b, last) && b.level <= 10
  {
    hide Pow64;
    hide Shifted;
    var f: nat, sibs: nat, offset: nat, level: nat := first, last - first, XA_CHUNK_MASK, 0;
    ghost var low: nat := 0;   // what the shifts have dropped from last - first
    StartShifted(first, last);
    while f % 64 == 0 && !(sibs < XA_CHUNK_MASK) && !(sibs == XA_CHUNK_MASK && offset < XA_CHUNK_MASK)
      invariant offset <= 63 && Shifted(f, sibs, offset, low, level, first, last)
      decreases sibs
    {
      Turn(f, sibs, offset, low, level, first, last);
      low := sibs % 64 * Pow64(level) + low;
      level := level + 1;
      if offset == XA_CHUNK_MASK {
        offset := sibs % 64;
      }
      sibs := sibs / 64;
      f := f / 64;
    }
    ghost var all := sibs;
    UseShifted(f, sibs, offset, low, level, first, last);
    TopReached(f, sibs, offset, low, level, first, last);
    offset := f % 64;
    if offset + sibs > XA_CHUNK_MASK {
      sibs := XA_CHUNK_MASK - offset;
    }
    ShiftWraps(f, sibs, all, low, level, first, last);
    if Minus1((f + sibs + 1) * Pow64(level) % WORD) > last {
      sibs := sibs - 1;
    }
    b := Block(first, level, sibs);
    assert b.index == f * Pow64(b.level) && f % 64 + b.sibs <= 63;
    NoMore(b, f, all, low, last, offset);
  }

  lemma StartShifted(first: nat, last: nat)
    requires first <= last
    ensures Shifted(first, last - first, 63, 0, 0, first, last)
  {
  }

  lemma UseShifted(f: nat, sibs: nat, offset: nat, low: nat, level: nat, first: nat, last: nat)
    requires Shifted(f, sibs, offset, low, level, first, last) && last < WORD
    ensures level <= 10 && f * Pow64(level) == first && sibs * Pow64(level) + low == last - first
    ensures Pow64(level) <= last - first + 1
  {
    LevelBound(level, last - first);
  }

  /** When the loop ends on an aligned slot, the range ends before 64 of these slots do. */
  lemma TopReached(f: nat, sibs: nat, offset: nat, low: nat, level: nat, first: nat, last: nat)
    requires Shifted(f, sibs, offset, low, level, first, last)
    ensures low < Pow64(level)
    ensures sibs < 63 || (sibs == 63 && offset < 63) ==> first + 64 * Pow64(level) - 1 > last
  {
    if sibs < 63 { MulLe(sibs, 62, Pow64(level)); }
  }

  lemma NoMore(b: Block, f: nat, all: nat, low: nat, last: nat, offset: nat)
    requires b.index == f * Pow64(b.level) && f % 64 == offset && offset + b.sibs <= 63 && low < Pow64(b.level)
    requires b.index + all * Pow64(b.level) + low == last
    requires offset == 0 ==> b.index + 64 * Pow64(b.level) - 1 > last
    requires b.sibs == all || offset + b.sibs == 63 || b.index + (b.sibs + 2) * Pow64(b.level) - 1 > last
    ensures Widest(b, last)
  {
    hide Pow64;
    Distribute(all, 2, Pow64(b.level));
    assert WidestAt(b, f, last);
  }

  /** There is only one such block. */
  lemma WidestIsUnique(b: Block, c: Block, first: nat, last: nat)
    requires Fits(b, first, last) && Widest(b, last) && Fits(c, first, last) && Widest(c, last)
    ensures b == c
  {
    hide Pow64;
    hide InOneNode;
    if b.level < c.level {
      NotHigher(b, c, first, last);
    } else if c.level < b.level {
      NotHigher(c, b, first, last);
    } else {
      NotWider(b, c, first, last);
      NotWider(c, b, first, last);
    }
  }

  lemma NotHigher(b: Block, c: Block, first: nat, last: nat)
    requires Fits(b, first, last) && Widest(b, last) && Fits(c, first, last) && Widest(c, last)
    ensures b.level >= c.level
  {
    hide Pow64;
    hide InOneNode;
    if b.level < c.level {
      var s: nat :| WidestAt(b, s, last);
      var t: nat :| WidestAt(c, t, last);
      SlotAligned(s, b.level, t, c.level);
      NextPow(b.level);
      PowMonotone(b.level + 1, c.level);
      MulLe(1, c.sibs + 1, Pow64(c.level));
    }
  }

  /** A boundary of slots at a higher level is one of a whole node at a lower level. */
  lemma SlotAligned(s: nat, j: nat, t: nat, k: nat)
    requires j < k && s * Pow64(j) == t * Pow64(k)
    ensures s % 64 == 0
  {
    hide Pow64;
    var p := Pow64(j);
    var m := PowDivides(j + 1, k);
    NextPow(j);
    assert t * (m * (64 * p)) == (64 * (t * m)) * p;
    MulCancel(s, 64 * (t * m), p);
  }

  lemma NotWider(b: Block, c: Block, first: nat, last: nat)
    requires Fits(b, first, last) && Widest(b, last) && Fits(c, first, last) && Widest(c, last) && b.level == c.level
    ensures b.sibs >= c.sibs
  {
    hide Pow64;
    hide InOneNode;
    var s: nat :| WidestAt(b, s, last);
    var t: nat :| WidestAt(c, t, last);
    MulCancel(s, t, Pow64(b.level));
    if b.sibs < c.sibs { MulLe(b.sibs + 2, c.sibs + 1, Pow64(b.level)); }
  }

  lemma NextPow(k: nat)
    ensures Pow64(k + 1) == 64 * Pow64(k)
  {
  }

  lemma {:induction false} PowDivides(j: nat, k: nat) returns (m: nat)
    requires j <= k
    ensures Pow64(k) == m * Pow64(j)
    decreases k
  {
    if j == k {
      m := 1;
    } else {
      var n := PowDivides(j, k - 1);
      m := 64 * n;
    }
  }

  lemma MulCancel(a: nat, b: nat, p: nat)
    requires p > 0 && a * p == b * p
    ensures a == b
  {
    assert (a - b) * p == 0;
  }

  /** Subtraction of one in 64 bits. */
  function Minus1(x: nat): nat { if x == 0 then WORD - 1 else x - 1 }

  /** The wrapped comparison asks the right question, and a positive answer leaves a sibling to give up. */
  lemma ShiftWraps(f: nat, s: nat, all: nat, low: nat, level: nat, first: nat, last: nat)
    requires level <= 10 && s <= all && first <= last < WORD
    requires f * Pow64(level) == first && all * Pow64(level) + low == last - first && Pow64(level) <= last - first + 1
    ensures Minus1((f + s + 1) * Pow64(level) % WORD) > last <==> first + (s + 1) * Pow64(level) - 1 > last
    ensures first + (s + 1) * Pow64(level) - 1 > last ==> s > 0 && first + s * Pow64(level) - 1 <= last
  {
    hide Pow64;
    var p := Pow64(level);
    var w := WordSlots(level);
    MulLe(s, all, p);
    Distribute(f, s, p);
    Distribute(f + s, 1, p);
    Distribute(s, 1, p);
    NextMultiple(f + s, w, p);
    assert (f + s + 1) * p == first + (s + 1) * p;
    if s == 0 { assert (s + 1) * p == p; }
  }

  lemma Distribute(a: nat, b: nat, p: nat)
    ensures (a + b) * p == a * p + b * p
  {
  }

  lemma {:induction false} PowMonotone(j: nat, k: nat)
    requires j <= k
    ensures Pow64(j) <= Pow64(k)
    decreases k
  {
    if j < k { PowMonotone(j, k - 1); }
  }

  lemma LevelBound(level: nat, n: nat)
    requires Pow64(level) <= n + 1 <= WORD
    ensures level <= 10
  {
    var w := WordSlots(10);
    assert Pow64(11) == 64 * Pow64(10);
    if level > 10 { PowMonotone(11, level); }
  }

  // ---------------------------------------------------------------------------
  // The loop of xa_store_range

  /** The blocks follow each other without gap or overlap, from `first` up to and including `last`. */
  ghost predicate Tiles(bs: seq<Block>, first: nat, last: int)
    decreases |bs|
  {
    if bs == [] then first == last + 1
    else bs[0].index == first && InOneNode(bs[0]) && Tiles(bs[1..], first + Size(bs[0]), last)
  }

  lemma {:induction false} TilesSnoc(bs: seq<Block>, first: nat, b: Block)
    requires Tiles(bs, first, b.index as int - 1) && InOneNode(b)
    ensures Tiles(bs + [b], first, b.index + Size(b) - 1)
    decreases |bs|
  {
    hide InOneNode;
    if bs != [] {
      TilesSnoc(bs[1..], first + Size(bs[0]), b);
      assert (bs + [b])[1..] == bs[1..] + [b];
    } else {
      assert ([] + [b])[1..] == [];
      assert Tiles([], first + Size(b), b.index + Size(b) - 1);
    }
  }

  /** Every index of a tiled range is in exactly one block. */
  lemma {:induction false} TilesCover(bs: seq<Block>, first: nat, last: int, x: nat)
    requires Tiles(bs, first, last) && first <= x <= last
    ensures exists k :: 0 <= k < |bs| && bs[k].index <= x < bs[k].index + Size(bs[k])
    ensures forall j, k :: 0 <= j < k < |bs| ==> bs[j].index + Size(bs[j]) <= bs[k].index
    decreases |bs|
  {
    hide InOneNode;
    var t, next := bs[1..], first + Size(bs[0]);
    if x < next {
      assert bs[0].index <= x < bs[0].index + Size(bs[0]);
      TilesOrdered(bs, first, last);
    } else {
      TilesCover(t, next, last, x);
      var k :| 0 <= k < |t| && t[k].index <= x < t[k].index + Size(t[k]);
      assert bs[k + 1] == t[k];
      TilesOrdered(bs, first, last);
    }
  }

  lemma {:induction false} TilesOrdered(bs: seq<Block>, first: nat, last: int)
    requires Tiles(bs, first, last)
    ensures forall k :: 0 <= k < |bs| ==> first <= bs[k].index
    ensures forall j, k :: 0 <= j < k < |bs| ==> bs[j].index + Size(bs[j]) <= bs[k].index
    decreases |bs|
  {
    hide InOneNode;
    if bs != [] {
      var t := bs[1..];
      TilesOrdered(t, first + Size(bs[0]), last);
      forall j, k | 0 <= j < k < |bs| ensures bs[j].index + Size(bs[j]) <= bs[k].index {
        assert bs[k] == t[k - 1];
        if j > 0 { assert bs[j] == t[j - 1]; }
      }
      forall k | 0 <= k < |bs| ensures first <= bs[k].index {
        if k > 0 { assert bs[k] == t[k - 1]; }
      }
    }
  }

  /** The inner loop of xa_store_range: the entries it stores, in order. */
  method StoreRange(first: nat, last: nat) returns (bs: seq<Block>)
    requires first <= last < WORD - 1
    ensures Tiles(bs, first, last)
  {
    hide InOneNode;
    hide Pow64;
    bs := [];
    var f := first;
    while f <= last
      invariant first <= f <= last + 1 && Tiles(bs, first, f as int - 1)
      decreases last + 1 - f
    {
      var b := SetRange(f, last);
      TilesSnoc(bs, first, b);
      SizePositive(b);
      bs := bs + [b];
      f := (f + Size(b)) % WORD;
    }
  }

  lemma SizePositive(b: Block)
    ensures Size(b) > 0
  {
    MulLe(1, b.sibs + 1, Pow64(b.level));
  }

  /**
   The bound on `last` is exact: for the largest index the loop never ends.  The first `turns` turns of it: once the
   range is tiled, the next index wraps to 0, the test succeeds and the next entry is stored at index 0.
   */
  method StoreRangeToMax(first: nat, turns: nat) returns (bs: seq<Block>, f: nat, ghost k: nat)
    requires first < WORD
    ensures |bs| == turns && f <= WORD - 1
    ensures turns > WORD - first ==> 0 < k < turns && Tiles(bs[..k], first, WORD - 1) && bs[k].index == 0
  {
    hide InOneNode;
    hide Pow64;
    bs, f, k := [], first, 0;
    while |bs| < turns
      invariant |bs| <= turns && f < WORD && k <= |bs| && k <= WORD - first
      invariant k == 0 ==> Tiles(bs, first, f as int - 1) && f >= first + |bs|
      invariant k > 0 ==> Tiles(bs[..k], first, WORD - 1) && if k == |bs| then f == 0 else bs[k].index == 0
    {
      var b := SetRange(f, WORD - 1);
      SizePositive(b);
      if k == 0 { TilesSnoc(bs, first, b); }
      ghost var before := bs;
      bs := bs + [b];
      if k > 0 {
        assert bs[..k] == before[..k];
      } else if f + Size(b) == WORD {
        k := |bs|;
        assert bs[..k] == bs;
      }
      f := (f + Size(b)) % WORD;
    }
  }
}
