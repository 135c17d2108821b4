/** The IDA (kernel/lib/idr.c), a set of IDs kept as one entry of an XArray for every 1024 of them. */
module Ida {
  import opened RadixState
  import opened RadixKeys
  import opened RadixRoot
  import opened FreeTree
  import opened Xarray
  import opened Bits
  import opened Options
  import opened Words

  const BITMAP_BITS: nat := 1024    // IDA_BITMAP_BITS
  const VALUE_BITS: nat := 63       // BITS_PER_XA_VALUE

  /** xa_mk_value, xa_is_value and xa_to_value */
  function MkValue(v: nat): nat { 2 * v + 1 }

  predicate IsValue(entry: nat) { entry % 2 == 1 }

  function ToValue(entry: nat): nat { entry / 2 }

  /** The bitmap of a chunk is named by the chunk; as a pointer it is aligned and not NULL. */
  function Address(c: nat): nat { 4 * c + 4 }

  type Bitmaps = (nat, nat) -> bool

  function PutRow(m: Bitmaps, c: nat, row: nat -> bool): Bitmaps { (d: nat, b: nat) => if d == c then row(b) else m(d, b) }

  function PutOne(m: Bitmaps, c: nat, o: nat, x: bool): Bitmaps { (d: nat, b: nat) => if d == c && b == o then x else m(d, b) }

  /** ID number b of chunk c. */
  ghost predicate InRow(ids: Pred, c: nat, b: nat) { ids(BITMAP_BITS * c + b) }

  /** Every ID of the chunk from lo up to hi. */
  ghost predicate RowFull(ids: Pred, c: nat, lo: nat, hi: nat) { forall b: nat | lo <= b < hi :: InRow(ids, c, b) }

  ghost predicate RowEmpty(ids: Pred, c: nat) { forall b: nat | b < BITMAP_BITS :: !InRow(ids, c, b) }

  /** No entry for a chunk without IDs; a value for low IDs only; else a bitmap. */
  ghost predicate EntryOk(e: Option<nat>, m: Bitmaps, ids: Pred, c: nat) {
    if e.None? then RowEmpty(ids, c)
    else if IsValue(e.value) then
      ToValue(e.value) > 0 && forall b: nat :: ValueBit(ToValue(e.value), ids, c, b)
    else
      && e.value == Address(c) && !RowEmpty(ids, c)
      && forall b: nat | b < BITMAP_BITS :: m(c, b) == InRow(ids, c, b)
  }

  ghost predicate ValueBit(v: nat, ids: Pred, c: nat, b: nat) {
    (Bit(v, b) ==> b < VALUE_BITS) && (b < BITMAP_BITS ==> Bit(v, b) == InRow(ids, c, b))
  }

  /** What the array and the bitmaps hold for chunk c; without the FREE mark, exactly if all its IDs are allocated. */
  ghost predicate ChunkOk(v: Items, full: Pred, m: Bitmaps, ids: Pred, c: nat) {
    EntryOk(v(c), m, ids, c) && (full(c) <==> RowFull(ids, c, 0, BITMAP_BITS))
  }

  /** The highest ID that a request can get. */
  function Top(max: nat): nat { if max > INT_MAX then INT_MAX else max }

  /** Exactly the entry of chunk c has changed, to a value or to a bitmap. */
  ghost predicate OneEntry(v: Items, v': Items, c: nat, value: bool) {
    v'(c).Some? && IsValue(v'(c).value) == value && forall k: nat | k != c :: v'(k) == v(k)
  }

  /** A chunk that gets the ID number `bit` is kept as a value as long as it has only had IDs that fit one. */
  ghost predicate KeptAs(before: Option<nat>, after: Option<nat>, bit: int) {
    after.Some? && (IsValue(after.value) <==> (before.None? || IsValue(before.value)) && bit < VALUE_BITS)
  }

  datatype Try = NoSpace | Next | Took(id: nat)

  /** An attempt in chunk c, from ID number `from` up to the ID `top`: at its first free ID, if there is one. */
  ghost predicate Tried(ids: Pred, ids': Pred, c: nat, from: nat, top: nat, r: Try) {
    var first := BITMAP_BITS * c + from;
    match r
    case NoSpace => ids' == ids && AllTaken(ids, first, top + 1)
    case Next => ids' == ids && AllTaken(ids, first, BITMAP_BITS * c + BITMAP_BITS)
    case Took(id) => first <= id <= top && !ids(id) && AllTaken(ids, first, id) && ids' == With(ids, id)
  }

  datatype Outcome = Freed | Warned | Oops

  class Ida {
    const xa: XArray
    var bitmap: Bitmaps
    ghost var ids: Pred

    ghost predicate Valid()
      reads this, xa, xa.root
    {
      xa.Valid() && forall c: nat :: ChunkOk(xa.val, xa.full, bitmap, ids, c)
    }

    constructor ()
      ensures Valid() && fresh(xa) && fresh(xa.root) && forall id: nat :: !ids(id)
    {
      xa := new XArray();
      bitmap, ids := (c, b) => false, _ => false;
      new;
      forall c: nat ensures ChunkOk(xa.val, xa.full, bitmap, ids, c) { assert !InRow(ids, c, 0); }
    }

    // -------------------------------------------------------------------------
    // Bits

    /** find_next_zero_bit in a value */
    static method NextZeroInValue(v: nat, from: nat) returns (b: nat)
      requires from <= VALUE_BITS
      ensures from <= b <= VALUE_BITS && (b < VALUE_BITS ==> !Bit(v, b)) && forall x: nat | from <= x < b :: Bit(v, x)
    {
      b := from;
      while b < VALUE_BITS && Bit(v, b)
        invariant from <= b <= VALUE_BITS && forall x: nat | from <= x < b :: Bit(v, x)
      {
        b := b + 1;
      }
    }

    /** find_next_zero_bit in a bitmap */
    method NextZero(c: nat, from: nat) returns (b: nat)
      requires from <= BITMAP_BITS
      ensures from <= b <= BITMAP_BITS && (b < BITMAP_BITS ==> !bitmap(c, b)) && forall x: nat | from <= x < b :: bitmap(c, x)
    {
      b := from;
      while b < BITMAP_BITS && bitmap(c, b)
        invariant from <= b <= BITMAP_BITS && forall x: nat | from <= x < b :: bitmap(c, x)
      {
        b := b + 1;
      }
    }

    /** bitmap_empty */
    method IsEmpty(c: nat) returns (r: bool)
      ensures r <==> forall b: nat | b < BITMAP_BITS :: !bitmap(c, b)
    {
      var b := 0;
      while b < BITMAP_BITS && !bitmap(c, b)
        invariant b <= BITMAP_BITS && forall x: nat | x < b :: !bitmap(c, x)
      {
        b := b + 1;
      }
      return b == BITMAP_BITS;
    }

    // -------------------------------------------------------------------------
    // Allocation

    /** Bit `bit` is set in the value of a chunk, or in a first value for it. */
    method TakeInValue(x: Xas, v: nat, bit: nat)
      requires Valid() && Walked(xa.root.State(), x) && bit < VALUE_BITS && !Bit(v, bit)
      requires xa.val(x.index) == if v == 0 then None else Some(MkValue(v))
      modifies this`ids, xa`val, xa.root
      ensures OneEntry(old(xa.val), xa.val, x.index, true)
      ensures Valid() && ids == With(old(ids), BITMAP_BITS * x.index + bit) && !old(ids)(BITMAP_BITS * x.index + bit)
    {
      hide IsXa;
      hide Walked;
      hide ChunkOk;
      hide AtEntry;
      hide Bit;
      hide SetBit;
      ValueWith(xa.val, xa.full, bitmap, ids, x.index, v, bit);
      var x' := xa.Store(x, MkValue(SetBit(v, bit)));
      ids := With(ids, BITMAP_BITS * x.index + bit);
      OthersKept(old(xa.val), xa.full, bitmap, old(ids), xa.val, xa.full, bitmap, ids, x.index);
    }

    /** A chunk without an entry gets a bitmap with one bit. */
    method TakeInNewBitmap(x: Xas, bit: nat)
      requires Valid() && Walked(xa.root.State(), x) && bit < BITMAP_BITS && xa.val(x.index).None?
      modifies this`ids, this`bitmap, xa`val, xa.root
      ensures OneEntry(old(xa.val), xa.val, x.index, false)
      ensures Valid() && ids == With(old(ids), BITMAP_BITS * x.index + bit) && !old(ids)(BITMAP_BITS * x.index + bit)
    {
      hide IsXa;
      hide Walked;
      hide ChunkOk;
      hide AtEntry;
      FirstInBitmap(xa.val, xa.full, bitmap, ids, x.index, bit);
      bitmap := PutOne(PutRow(bitmap, x.index, NoBits()), x.index, bit, true);
      var x' := xa.Store(x, Address(x.index));
      ids := With(ids, BITMAP_BITS * x.index + bit);
      OthersKept(old(xa.val), xa.full, old(bitmap), old(ids), xa.val, xa.full, bitmap, ids, x.index);
    }

    /** The value of a chunk becomes a bitmap. */
    method Convert(x: Xas, v: nat) returns (x': Xas)
      requires Valid() && Walked(xa.root.State(), x) && xa.val(x.index) == Some(MkValue(v))
      modifies this`bitmap, xa`val, xa.root
      ensures Valid() && x'.index == x.index && AtEntry(xa.root.State(), x') && xa.val(x.index) == Some(Address(x.index))
      ensures OneEntry(old(xa.val), xa.val, x.index, false)
    {
      hide IsXa;
      hide Walked;
      hide ChunkOk;
      hide AtEntry;
      hide Bit;
      ValueAsBitmap(xa.val, xa.full, bitmap, ids, x.index, v);
      bitmap := PutRow(bitmap, x.index, WordBits(v));
      x' := xa.Store(x, Address(x.index));
      OthersKept(old(xa.val), xa.full, old(bitmap), ids, xa.val, xa.full, bitmap, ids, x.index);
    }

    /** A clear bit of a bitmap is set; with the last one the FREE mark goes. */
    method TakeInBitmap(x: Xas, bit: nat)
      requires Valid() && AtEntry(xa.root.State(), x) && bit < BITMAP_BITS && xa.val(x.index) == Some(Address(x.index)) && !bitmap(x.index, bit)
      modifies this`ids, this`bitmap, xa`full, xa.root
      ensures Valid() && ids == With(old(ids), BITMAP_BITS * x.index + bit) && !old(ids)(BITMAP_BITS * x.index + bit)
    {
      hide IsXa;
      hide AtEntry;
      hide ChunkOk;
      bitmap := PutOne(bitmap, x.index, bit, true);
      var zero := NextZero(x.index, 0);
      NotFullYet(xa.val, xa.full, old(bitmap), ids, x.index, bit);
      if zero == BITMAP_BITS {
        xa.ClearMark(x);
      }
      BitmapWith(xa.val, old(xa.full), xa.full, old(bitmap), ids, x.index, bit);
      ids := With(ids, BITMAP_BITS * x.index + bit);
      OthersKept(xa.val, old(xa.full), old(bitmap), old(ids), xa.val, xa.full, bitmap, ids, x.index);
    }

    /** A first free bit of a bitmap, from `bit` on. */
    method TryBitmap(x: Xas, bit: nat, top: nat) returns (r: Try)
      requires Valid() && AtEntry(xa.root.State(), x) && bit < BITMAP_BITS && xa.val(x.index) == Some(Address(x.index))
      modifies this`ids, this`bitmap, xa`full, xa.root
      ensures Valid() && (r.Next? ==> AtEntry(xa.root.State(), x))
      ensures Tried(old(ids), ids, x.index, bit, top, r) && (r.Took? ==> r.id < BITMAP_BITS * x.index + BITMAP_BITS)
    {
      hide IsXa;
      hide AtEntry;
      hide ChunkOk;
      hide With;
      var b := NextZero(x.index, bit);
      SeenInBitmap(xa.val, xa.full, bitmap, ids, x.index, bit, b);
      if BITMAP_BITS * x.index + b > top {
        return NoSpace;
      }
      if b == BITMAP_BITS {
        return Next;
      }
      TakeInBitmap(x, b);
      return Took(BITMAP_BITS * x.index + b);
    }

    /** What ida_alloc_range does at a chunk with the FREE mark. */
    method TryChunk(x: Xas, entry: Option<nat>, from: nat, top: nat) returns (r: Try, x': Xas)
      requires Valid() && Walked(xa.root.State(), x) && entry == xa.val(x.index) && (entry.Some? ==> AtEntry(xa.root.State(), x))
      requires from < BITMAP_BITS && BITMAP_BITS * x.index + from <= top
      modifies this`ids, this`bitmap, xa`val, xa`full, xa.root
      ensures Valid() && (r.Next? ==> x'.index == x.index && AtEntry(xa.root.State(), x'))
      ensures Tried(old(ids), ids, x.index, from, top, r)
      ensures forall c: nat | c != x.index :: xa.val(c) == old(xa.val)(c)
      ensures r.Took? ==> r.id < BITMAP_BITS * x.index + BITMAP_BITS
      ensures r.Took? ==> KeptAs(old(xa.val)(x.index), xa.val(x.index), r.id - BITMAP_BITS * x.index)
    {
      hide IsXa;
      hide Walked;
      hide AtEntry;
      hide ChunkOk;
      hide With;
      hide Bit;
      x' := x;
      var bit := from;
      if entry.Some? && IsValue(entry.value) {
        var v := ToValue(entry.value);
        if bit < VALUE_BITS {
          bit := NextZeroInValue(v, bit);
          SeenInValue(xa.val, xa.full, bitmap, ids, x.index, v, from, bit);
          if BITMAP_BITS * x.index + bit > top {
            return NoSpace, x';
          }
          if bit < VALUE_BITS {
            TakeInValue(x, v, bit);
            return Took(BITMAP_BITS * x.index + bit), x';
          }
        }
        x' := Convert(x, v);
      } else if entry.None? {
        if bit < VALUE_BITS {
          ZeroIsEmpty(bit);
          TakeInValue(x, 0, bit);
        } else {
          TakeInNewBitmap(x, bit);
        }
        return Took(BITMAP_BITS * x.index + bit), x';
      } else {
        BitmapAddress(xa.val, xa.full, bitmap, ids, x.index);
      }
      r := TryBitmap(x', bit, top);
    }

    /**
     ida_alloc_range: the least unused ID from min to max, but not above INT_MAX;
     None is -ENOSPC, and says that there is no such ID.
     */
    method AllocRange(min: nat, max: nat) returns (r: Option<nat>)
      requires Valid() && min < UINT && max < UINT
      modifies this`ids, this`bitmap, xa`val, xa`full, xa.root
      ensures Valid()
      ensures r.None? ==> ids == old(ids) && AllTaken(ids, min, Top(max) + 1)
      ensures r.Some? ==> min <= r.value <= Top(max) && !old(ids)(r.value) && AllTaken(old(ids), min, r.value)
      ensures r.Some? ==> ids == With(old(ids), r.value) && r.value <= max && r.value <= INT_MAX
      ensures r.None? <==> forall id: nat | min <= id <= max && id <= INT_MAX :: old(ids)(id)
      ensures r.Some? ==> var c := r.value / BITMAP_BITS; KeptAs(old(xa.val)(c), xa.val(c), r.value % BITMAP_BITS)
    {
      hide IsXa;
      hide Walked;
      hide AtEntry;
      hide ChunkOk;
      hide With;
      if min > INT_MAX {
        return None;
      }
      var top := Top(max);
      var x, bit := Xas(min / BITMAP_BITS, Restart), min % BITMAP_BITS;
      while true
        invariant Valid() && ids == old(ids) && x.index >= min / BITMAP_BITS
        invariant x.pos.Restart? ==> x.index == min / BITMAP_BITS && bit == min % BITMAP_BITS
        invariant !x.pos.Restart? ==> AtEntry(xa.root.State(), x) && x.index <= top / BITMAP_BITS
        invariant !x.pos.Restart? ==> AllTaken(ids, min, BITMAP_BITS * x.index + BITMAP_BITS)
        invariant forall c: nat | c > x.index || x.pos.Restart? :: xa.val(c) == old(xa.val)(c)
        decreases if x.pos.Restart? then 1 else 0, top / BITMAP_BITS - x.index
      {
        var x', entry := xa.FindMarked(x, top / BITMAP_BITS);
        ChunksTaken(xa.val, xa.full, bitmap, ids, if x.pos.Restart? then x.index else x.index + 1, x'.index);
        x := x';
        if x.index > min / BITMAP_BITS {
          bit := 0;
        }
        if BITMAP_BITS * x.index + bit > top {
          return None;
        }
        var t;
        ghost var c := x.index;
        t, x := TryChunk(x, entry, bit, top);
        if t.Took? {
          assert t.id / BITMAP_BITS == c && t.id % BITMAP_BITS == t.id - BITMAP_BITS * c;
          return Some(t.id);
        }
        if t.NoSpace? {
          return None;
        }
        EntryIsWalked(xa.root.State(), x);
      }
    }

    // -------------------------------------------------------------------------
    // Release

    /**
     ida_free: exactly this ID becomes unused.  An ID that is not allocated is reported (Warned), except that
     without any ID of its chunk there is no bitmap to test it in (Oops: a NULL pointer is followed).
     */
    method Free(id: nat) returns (r: Outcome)
      requires Valid() && id <= INT_MAX
      modifies this`ids, this`bitmap, xa`val, xa`full, xa.root
      ensures Valid() && (r.Freed? <==> old(ids)(id)) && (r.Oops? <==> RowEmpty(old(ids), id / BITMAP_BITS))
      ensures r.Freed? ==> ids == Without(old(ids), id)
      ensures !r.Freed? ==> ids == old(ids) && xa.root.State() == old(xa.root.State()) && bitmap == old(bitmap)
    {
      hide IsXa;
      hide Walked;
      hide AtEntry;
      hide ChunkOk;
      hide Without;
      hide Bit;
      var c, bit := id / BITMAP_BITS, id % BITMAP_BITS;
      var x, e := xa.Load(c);
      EntryShows(xa.val, xa.full, bitmap, ids, c, bit);
      if e.None? {
        return Oops;
      }
      if IsValue(e.value) {
        var v := ToValue(e.value);
        if bit >= VALUE_BITS || !Bit(v, bit) {
          return Warned;
        }
        FreeInValue(x, v, bit);
      } else {
        if !bitmap(c, bit) {
          return Warned;
        }
        FreeInBitmap(x, bit);
      }
      return Freed;
    }

    method FreeInValue(x: Xas, v: nat, bit: nat)
      requires Valid() && AtEntry(xa.root.State(), x) && xa.val(x.index) == Some(MkValue(v)) && Bit(v, bit) && bit < VALUE_BITS
      modifies this`ids, xa`val, xa`full, xa.root
      ensures Valid() && ids == Without(old(ids), BITMAP_BITS * x.index + bit)
    {
      hide IsXa;
      hide Walked;
      hide AtEntry;
      hide ChunkOk;
      hide Bit;
      hide ClearBit;
      ValueWithout(xa.val, xa.full, bitmap, ids, x.index, v, bit);
      var v' := ClearBit(v, bit);
      if v' == 0 {
        xa.Erase(x);
      } else {
        EntryIsWalked(xa.root.State(), x);
        var x' := xa.Store(x, MkValue(v'));
      }
      ids := Without(ids, BITMAP_BITS * x.index + bit);
      OthersKept(old(xa.val), old(xa.full), bitmap, old(ids), xa.val, xa.full, bitmap, ids, x.index);
    }

    method FreeInBitmap(x: Xas, bit: nat)
      requires Valid() && AtEntry(xa.root.State(), x) && xa.val(x.index).Some? && !IsValue(xa.val(x.index).value)
      requires bit < BITMAP_BITS && bitmap(x.index, bit)
      modifies this`ids, this`bitmap, xa`val, xa`full, xa.root
      ensures Valid() && ids == Without(old(ids), BITMAP_BITS * x.index + bit)
    {
      hide IsXa;
      hide ChunkOk;
      BitmapWithout(xa.val, xa.full, bitmap, ids, x.index, bit);
      bitmap := PutOne(bitmap, x.index, bit, false);
      xa.SetMark(x);
      var empty := IsEmpty(x.index);
      if empty {
        xa.Erase(x);
        EmptyChunk(old(xa.val), xa.val, xa.full, bitmap, Without(ids, BITMAP_BITS * x.index + bit), x.index);
      } else {
        SparseChunk(xa.val, xa.full, bitmap, Without(ids, BITMAP_BITS * x.index + bit), x.index, bit);
      }
      ids := Without(ids, BITMAP_BITS * x.index + bit);
      OthersKept(old(xa.val), old(xa.full), old(bitmap), old(ids), xa.val, xa.full, bitmap, ids, x.index);
    }
  }

  function NoBits(): nat -> bool { (_: nat) => false }

  /** bitmap[0] = v in an empty bitmap */
  function WordBits(v: nat): nat -> bool { (b: nat) => b < 64 && Bit(v, b) }

  // ---------------------------------------------------------------------------
  // One chunk changes

  /** A chunk is not affected by changes in others. */
  lemma ChunkSame(v: Items, full: Pred, m: Bitmaps, ids: Pred, v': Items, full': Pred, m': Bitmaps, ids': Pred, c: nat)
    requires ChunkOk(v, full, m, ids, c) && v'(c) == v(c) && full'(c) == full(c) && forall b: nat | b < BITMAP_BITS :: m'(c, b) == m(c, b)
    requires forall b: nat | b < BITMAP_BITS :: InRow(ids', c, b) == InRow(ids, c, b)
    ensures ChunkOk(v', full', m', ids', c)
  {
    hide InRow;
    if v(c).Some? && IsValue(v(c).value) {
      forall b: nat ensures ValueBit(ToValue(v(c).value), ids', c, b) { assert ValueBit(ToValue(v(c).value), ids, c, b); }
    }
  }

  lemma OthersKept(v: Items, full: Pred, m: Bitmaps, ids: Pred, v': Items, full': Pred, m': Bitmaps, ids': Pred, c: nat)
    requires (forall d: nat :: ChunkOk(v, full, m, ids, d)) && ChunkOk(v', full', m', ids', c)
    requires forall d: nat | d != c :: v'(d) == v(d) && full'(d) == full(d)
    requires forall d: nat, b: nat | d != c :: m'(d, b) == m(d, b)
    requires forall i: nat | i / BITMAP_BITS != c :: ids'(i) == ids(i)
    ensures forall d: nat :: ChunkOk(v', full', m', ids', d)
  {
    hide ChunkOk;
    forall d: nat ensures ChunkOk(v', full', m', ids', d) {
      if d != c {
        forall b: nat | b < BITMAP_BITS ensures InRow(ids', d, b) == InRow(ids, d, b) {
          assert (BITMAP_BITS * d + b) / BITMAP_BITS == d;
        }
        ChunkSame(v, full, m, ids, v', full', m', ids', d);
      }
    }
  }

  /** An ID that is added, seen from its chunk. */
  lemma RowWith(ids: Pred, c: nat, bit: nat, b: nat)
    ensures InRow(With(ids, BITMAP_BITS * c + bit), c, b) == (InRow(ids, c, b) || b == bit)
    ensures InRow(Without(ids, BITMAP_BITS * c + bit), c, b) == (InRow(ids, c, b) && b != bit)
  {
  }

  lemma ValueWith(vs: Items, full: Pred, m: Bitmaps, ids: Pred, c: nat, v: nat, bit: nat)
    requires ChunkOk(vs, full, m, ids, c) && bit < VALUE_BITS && !Bit(v, bit)
    requires vs(c) == if v == 0 then None else Some(MkValue(v))
    ensures !InRow(ids, c, bit)
    ensures ChunkOk(PutItem(vs, c, Some(MkValue(SetBit(v, bit)))), full, m, With(ids, BITMAP_BITS * c + bit), c)
  {
    hide InRow;
    hide Bit;
    hide SetBit;
    hide With;
    var ids', v' := With(ids, BITMAP_BITS * c + bit), SetBit(v, bit);
    assert ToValue(MkValue(v)) == v;
    forall b: nat ensures ValueBit(v, ids, c, b) { if v == 0 { ZeroIsEmpty(b); } }
    forall b: nat ensures ValueBit(v', ids', c, b) {
      assert ValueBit(v, ids, c, b);
      SetBitIs(v, bit, b);
      RowWith(ids, c, bit, b);
    }
    assert ToValue(MkValue(v')) == v';
    if v' == 0 { ZeroIsEmpty(bit); }
    SetBitIs(v, bit, bit);
    HighBitsClear(v', ids', c);
    assert ValueBit(v, ids, c, bit);
    HighBitsClear(v, ids, c);
  }

  /** A chunk with a value has free IDs. */
  lemma HighBitsClear(v: nat, ids: Pred, c: nat)
    requires forall b: nat :: ValueBit(v, ids, c, b)
    ensures !RowFull(ids, c, 0, BITMAP_BITS)
  {
    hide InRow;
    hide Bit;
    assert ValueBit(v, ids, c, VALUE_BITS);
    assert !InRow(ids, c, VALUE_BITS);
  }

  lemma FirstInBitmap(vs: Items, full: Pred, m: Bitmaps, ids: Pred, c: nat, bit: nat)
    requires ChunkOk(vs, full, m, ids, c) && bit < BITMAP_BITS && vs(c).None?
    ensures !InRow(ids, c, bit)
    ensures ChunkOk(PutItem(vs, c, Some(Address(c))), full, PutOne(PutRow(m, c, NoBits()), c, bit, true), With(ids, BITMAP_BITS * c + bit), c)
  {
    hide InRow;
    hide With;
    var ids', m' := With(ids, BITMAP_BITS * c + bit), PutOne(PutRow(m, c, NoBits()), c, bit, true);
    forall b: nat | b < BITMAP_BITS ensures m'(c, b) == InRow(ids', c, b) { RowWith(ids, c, bit, b); }
    RowWith(ids, c, bit, bit);
    var other: nat := if bit == 0 then 1 else 0;
    RowWith(ids, c, bit, other);
    assert !InRow(ids', c, other) && !InRow(ids, c, 0);
  }

  lemma ValueAsBitmap(vs: Items, full: Pred, m: Bitmaps, ids: Pred, c: nat, v: nat)
    requires ChunkOk(vs, full, m, ids, c) && vs(c) == Some(MkValue(v))
    ensures ChunkOk(PutItem(vs, c, Some(Address(c))), full, PutRow(m, c, WordBits(v)), ids, c)
  {
    hide InRow;
    hide Bit;
    assert ToValue(MkValue(v)) == v;
    var m' := PutRow(m, c, WordBits(v));
    forall b: nat | b < BITMAP_BITS ensures m'(c, b) == InRow(ids, c, b) { assert ValueBit(v, ids, c, b); }
    var b := SomeBit(v);
    assert ValueBit(v, ids, c, b);
  }

  /** The IDs that were passed over are allocated. */
  lemma RowTaken(ids: Pred, c: nat, lo: nat, hi: nat)
    requires RowFull(ids, c, lo, hi)
    ensures AllTaken(ids, BITMAP_BITS * c + lo, BITMAP_BITS * c + hi)
  {
    forall i: nat | BITMAP_BITS * c + lo <= i < BITMAP_BITS * c + hi ensures ids(i) {
      assert InRow(ids, c, i - BITMAP_BITS * c);
    }
  }

  lemma SeenInBitmap(vs: Items, full: Pred, m: Bitmaps, ids: Pred, c: nat, from: nat, b: nat)
    requires ChunkOk(vs, full, m, ids, c) && vs(c) == Some(Address(c)) && b <= BITMAP_BITS
    requires forall x: nat | from <= x < b :: m(c, x)
    ensures AllTaken(ids, BITMAP_BITS * c + from, BITMAP_BITS * c + b)
  {
    hide InRow;
    RowTaken(ids, c, from, b);
  }

  lemma SeenInValue(vs: Items, full: Pred, m: Bitmaps, ids: Pred, c: nat, v: nat, from: nat, b: nat)
    requires ChunkOk(vs, full, m, ids, c) && vs(c) == Some(MkValue(v)) && b <= VALUE_BITS
    requires forall x: nat | from <= x < b :: Bit(v, x)
    ensures AllTaken(ids, BITMAP_BITS * c + from, BITMAP_BITS * c + b) && v > 0
  {
    hide InRow;
    hide Bit;
    assert ToValue(MkValue(v)) == v;
    forall x: nat | from <= x < b ensures InRow(ids, c, x) { assert ValueBit(v, ids, c, x); }
    RowTaken(ids, c, from, b);
  }

  lemma BitmapAddress(vs: Items, full: Pred, m: Bitmaps, ids: Pred, c: nat)
    requires ChunkOk(vs, full, m, ids, c) && vs(c).Some? && !IsValue(vs(c).value)
    ensures vs(c) == Some(Address(c))
  {
  }

  /** Without the FREE mark, all IDs of a chunk are allocated. */
  lemma ChunksTaken(vs: Items, full: Pred, m: Bitmaps, ids: Pred, lo: nat, hi: nat)
    requires (forall c: nat :: ChunkOk(vs, full, m, ids, c)) && AllTaken(full, lo, hi)
    ensures AllTaken(ids, BITMAP_BITS * lo, BITMAP_BITS * hi)
  {
    hide EntryOk;
    forall i: nat | BITMAP_BITS * lo <= i < BITMAP_BITS * hi ensures ids(i) {
      var c := i / BITMAP_BITS;
      assert ChunkOk(vs, full, m, ids, c) && full(c);
      assert InRow(ids, c, i % BITMAP_BITS);
    }
  }

  lemma NotFullYet(vs: Items, full: Pred, m: Bitmaps, ids: Pred, c: nat, bit: nat)
    requires ChunkOk(vs, full, m, ids, c) && bit < BITMAP_BITS && vs(c) == Some(Address(c)) && !m(c, bit)
    ensures !full(c)
  {
    assert !InRow(ids, c, bit);
  }

  lemma BitmapWith(vs: Items, full: Pred, full': Pred, m: Bitmaps, ids: Pred, c: nat, bit: nat)
    requires ChunkOk(vs, full, m, ids, c) && bit < BITMAP_BITS && vs(c) == Some(Address(c)) && !m(c, bit)
    requires full'(c) <==> forall b: nat | b < BITMAP_BITS :: PutOne(m, c, bit, true)(c, b)
    ensures !InRow(ids, c, bit) && ChunkOk(vs, full', PutOne(m, c, bit, true), With(ids, BITMAP_BITS * c + bit), c)
  {
    hide InRow;
    hide With;
    var ids', m' := With(ids, BITMAP_BITS * c + bit), PutOne(m, c, bit, true);
    forall b: nat | b < BITMAP_BITS ensures m'(c, b) == InRow(ids', c, b) { RowWith(ids, c, bit, b); }
    RowWith(ids, c, bit, bit);
  }

  /** What the entry of a chunk tells about one of its IDs. */
  lemma EntryShows(vs: Items, full: Pred, m: Bitmaps, ids: Pred, c: nat, bit: nat)
    requires ChunkOk(vs, full, m, ids, c) && bit < BITMAP_BITS
    ensures (vs(c).None? <==> RowEmpty(ids, c)) && (vs(c).None? ==> !ids(BITMAP_BITS * c + bit))
    ensures vs(c).Some? && IsValue(vs(c).value) ==>
              (ids(BITMAP_BITS * c + bit) <==> bit < VALUE_BITS && Bit(ToValue(vs(c).value), bit))
    ensures vs(c).Some? && !IsValue(vs(c).value) ==> (ids(BITMAP_BITS * c + bit) <==> m(c, bit))
  {
    hide Bit;
    assert InRow(ids, c, bit) == ids(BITMAP_BITS * c + bit);
    if vs(c).Some? && IsValue(vs(c).value) {
      var v := ToValue(vs(c).value);
      assert ValueBit(v, ids, c, bit);
      var b := SomeBit(v);
      assert ValueBit(v, ids, c, b);
    }
  }

  lemma ValueWithout(vs: Items, full: Pred, m: Bitmaps, ids: Pred, c: nat, v: nat, bit: nat)
    requires ChunkOk(vs, full, m, ids, c) && vs(c) == Some(MkValue(v)) && bit < VALUE_BITS
    ensures var v', ids' := ClearBit(v, bit), Without(ids, BITMAP_BITS * c + bit);
            && (v' > 0 ==> ChunkOk(PutItem(vs, c, Some(MkValue(v'))), full, m, ids', c))
            && (v' == 0 ==> ChunkOk(PutItem(vs, c, None), Without(full, c), m, ids', c))
  {
    hide InRow;
    hide Bit;
    hide ClearBit;
    var v', ids' := ClearBit(v, bit), Without(ids, BITMAP_BITS * c + bit);
    assert ToValue(MkValue(v)) == v && ToValue(MkValue(v')) == v';
    forall b: nat ensures ValueBit(v', ids', c, b) && (v' == 0 && b < BITMAP_BITS ==> !InRow(ids', c, b)) {
      assert ValueBit(v, ids, c, b);
      ClearBitIs(v, bit, b);
      RowWith(ids, c, bit, b);
      if v' == 0 { ZeroIsEmpty(b); }
    }
    HighBitsClear(v, ids, c);
    HighBitsClear(v', ids', c);
  }

  lemma BitmapWithout(vs: Items, full: Pred, m: Bitmaps, ids: Pred, c: nat, bit: nat)
    requires ChunkOk(vs, full, m, ids, c) && vs(c).Some? && !IsValue(vs(c).value) && bit < BITMAP_BITS
    ensures vs(c) == Some(Address(c))
    ensures var m', ids' := PutOne(m, c, bit, false), Without(ids, BITMAP_BITS * c + bit);
            (forall b: nat | b < BITMAP_BITS :: m'(c, b) == InRow(ids', c, b)) && !InRow(ids', c, bit)
  {
    hide InRow;
    hide Without;
    var m', ids' := PutOne(m, c, bit, false), Without(ids, BITMAP_BITS * c + bit);
    RowWith(ids, c, bit, bit);
    forall b: nat | b < BITMAP_BITS ensures m'(c, b) == InRow(ids', c, b) { RowWith(ids, c, bit, b); }
  }

  lemma EmptyChunk(vs: Items, vs': Items, full: Pred, m: Bitmaps, ids: Pred, c: nat)
    requires vs' == PutItem(vs, c, None) && !full(c)
    requires forall b: nat | b < BITMAP_BITS :: !m(c, b) && m(c, b) == InRow(ids, c, b)
    ensures ChunkOk(vs', full, m, ids, c)
  {
    assert !InRow(ids, c, 0);
  }

  lemma SparseChunk(vs: Items, full: Pred, m: Bitmaps, ids: Pred, c: nat, bit: nat)
    requires vs(c) == Some(Address(c)) && !full(c) && bit < BITMAP_BITS && !InRow(ids, c, bit)
    requires forall b: nat | b < BITMAP_BITS :: m(c, b) == InRow(ids, c, b)
    requires exists b: nat :: b < BITMAP_BITS && m(c, b)
    ensures ChunkOk(vs, full, m, ids, c)
  {
  }

  // ---------------------------------------------------------------------------
  // What the marks mean for the IDs

  /** An entry without the FREE mark is a bitmap, and full; with it, the chunk has a free ID. */
  lemma MarkIsClearIffFull(s: Tree, h: nat, vs: Items, full: Pred, m: Bitmaps, ids: Pred, q: Place, o: nat)
    requires Matches(s, h, ShapeOf(OccOf(vs)), FreeTags(full), vs) && s.live(q) && q.level == 0 && o < 64
    requires ChunkOk(vs, full, m, ids, 64 * q.prefix + o)
    ensures var c := 64 * q.prefix + o;
            && (!s.node(q).tag(FREE, o) <==> forall id: nat | id / BITMAP_BITS == c :: ids(id))
            && (!s.node(q).tag(FREE, o) ==> vs(c) == Some(Address(c)) && forall b: nat | b < BITMAP_BITS :: m(c, b))
  {
    hide Matches;
    hide Bit;
    var c := 64 * q.prefix + o;
    FreeBitIsExact(s, h, OccOf(vs), full, vs, q, o);
    KeyBase(c);
    assert s.node(q).tag(FREE, o) <==> !full(c) by {
      if !full(c) { assert Key(q.level, c) == c; }
      if i: nat :| !full(i) && Key(q.level, i) == c { KeyBase(i); }
    }
    if full(c) {
      assert InRow(ids, c, 0);
      if vs(c).Some? && IsValue(vs(c).value) { HighBitsClear(ToValue(vs(c).value), ids, c); }
      forall id: nat | id / BITMAP_BITS == c ensures ids(id) { assert InRow(ids, c, id % BITMAP_BITS); }
    } else {
      var b: nat :| b < BITMAP_BITS && !InRow(ids, c, b);
      assert (BITMAP_BITS * c + b) / BITMAP_BITS == c;
    }
  }

  /** On every level, the mark says whether some ID below the slot is free. */
  lemma MarkLeadsToFreeId(s: Tree, h: nat, vs: Items, full: Pred, m: Bitmaps, ids: Pred, q: Place, o: nat)
    requires Matches(s, h, ShapeOf(OccOf(vs)), FreeTags(full), vs) && s.live(q) && o < 64
    requires forall c: nat :: ChunkOk(vs, full, m, ids, c)
    ensures s.node(q).tag(FREE, o) <==> exists id: nat :: !ids(id) && Key(q.level, id / BITMAP_BITS) == 64 * q.prefix + o
  {
    hide Matches;
    hide Key;
    hide EntryOk;
    var k := 64 * q.prefix + o;
    FreeBitIsExact(s, h, OccOf(vs), full, vs, q, o);
    if c: nat :| !full(c) && Key(q.level, c) == k {
      assert ChunkOk(vs, full, m, ids, c);
      var b: nat :| b < BITMAP_BITS && !InRow(ids, c, b);
      var id := BITMAP_BITS * c + b;
      assert id / BITMAP_BITS == c && !ids(id);
    }
    if id: nat :| !ids(id) && Key(q.level, id / BITMAP_BITS) == k {
      var c := id / BITMAP_BITS;
      assert ChunkOk(vs, full, m, ids, c);
      assert !InRow(ids, c, id % BITMAP_BITS);
      assert !full(c);
    }
  }
}
