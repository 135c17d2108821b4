/** The kernel log ring buffer of kernel/core/printf.c, refining a queue of records. */
module LogBuffer {
  import opened LogRecord
  import opened LogLayout
  import opened Words

  const MAX_LOG_TAKE_PART: nat := 4

  /** trunc_msg, "<truncated>" */
  const TRUNC_MSG: seq<byte> := [60, 116, 114, 117, 110, 99, 97, 116, 101, 100, 62]

  /** logbuf_has_space */
  predicate HasSpace(len: nat, firstIdx: nat, nextIdx: nat, size: nat, empty: bool)
    requires nextIdx <= len
  {
    var free :=
      if nextIdx > firstIdx || empty then Max(len - nextIdx, firstIdx)
      else firstIdx - nextIdx;
    free >= size + HEADER
  }

  /** An empty buffer whose indices stand at nextIdx can take a record of this size, behind nextIdx or in front of it. */
  predicate FitsEmpty(len: nat, nextIdx: nat, size: nat) {
    nextIdx + size + HEADER <= len || size + HEADER <= nextIdx
  }

  /** logbuf_has_space tells exactly whether there is room. */
  lemma SpaceIsRoom(b: seq<byte>, recs: seq<Rec>, idx: seq<nat>, w: nat, align: Align, size: nat)
    requires Laid(b, recs, idx, w, align)
    ensures HasSpace(|b|, idx[0], idx[|recs|], size, recs == []) <==> Room(|b|, idx, w, size)
    ensures recs == [] ==> (Room(|b|, idx, w, size) <==> FitsEmpty(|b|, idx[0], size))
    ensures Room(|b|, idx, w, size) ==> FitsEmpty(|b|, idx[|recs|], size)
  {
    hide StoredAt;
    hide LenAt;
    hide Unused;
    RoomBehind(b, recs, idx, w, align, size);
    RoomInFront(b, recs, idx, w, align, size);
    if recs != [] { assert RecordOk(b, recs, idx, w, align, 0); }
  }

  /** The wrap marker of the records from number s on, if that of an older state stood before record a. */
  function WrapFrom(a: nat, s: nat, nextSeq: nat): nat
    requires s <= nextSeq
  {
    if s <= a then a - s else nextSeq - s
  }

  /** With all records from number s on there is no room. */
  ghost predicate Cramped(len: nat, pos: seq<nat>, a: nat, s: nat, size: nat) {
    s < |pos| && !Room(len, pos[s..], WrapFrom(a, s, |pos| - 1), size)
  }

  /** The message is short enough for the 16-bit size field, with or without the truncation mark. */
  predicate Sized(text: seq<byte>, dict: seq<byte>) {
    |text| + |dict| + HEADER + |TRUNC_MSG| + 8 <= 0x10000
  }

  /** The record that the arguments of log_store describe. */
  function Message(facility: nat, level: nat, flags: nat, ts: nat, dict: seq<byte>, text: seq<byte>, clock: nat): Rec {
    Rec(if ts > 0 then ts else clock, facility % 256, flags % 32, level % 8, text, dict)
  }

  /** The part of the text that truncate_msg keeps. */
  function TruncateMsg(text: seq<byte>, len: nat): seq<byte> {
    var max := len / MAX_LOG_TAKE_PART;
    if |text| > max then text[..max] else text
  }

  /** The record that truncate_msg makes of a message. */
  function Truncated(r: Rec, len: nat): Rec {
    r.(text := TruncateMsg(r.text, len) + TRUNC_MSG, dict := [])
  }

  lemma StorableMessage(r: Rec, len: nat, align: Align)
    requires r.ts < Pow256(8) && r.facility < 256 && r.flags < 32 && r.level < 8 && Sized(r.text, r.dict)
    ensures Storable(r, align) && Storable(Truncated(r, len), align)
  {
    hide Pow256;
    hide PadLen;
  }

  /** What log_store does with a message: keep it whole, keep it truncated, or drop it. */
  function Accepted(r: Rec, len: nat, nextIdx: nat, align: Align): seq<Rec> {
    if FitsEmpty(len, nextIdx, Size(r, align)) then [r]
    else if FitsEmpty(len, nextIdx, Size(Truncated(r, len), align)) then [Truncated(r, len)]
    else []
  }

  /** A truncated message is the message with at most a quarter of the buffer of its text, marked, and no dictionary. */
  lemma TruncatedIs(r: Rec, len: nat)
    ensures var t := Truncated(r, len); var n := |t.text| - |TRUNC_MSG|;
            && 0 <= n <= |r.text| && 4 * n <= len && (n == |r.text| || 4 * (n + 1) > len)
            && t.text[..n] == r.text[..n] && t.text[n..] == TRUNC_MSG && t == r.(text := t.text, dict := [])
  {
  }

  /** A buffer of 200 bytes or more takes every message, wherever its indices stand. */
  lemma NothingRefused(r: Rec, len: nat, nextIdx: nat, align: Align)
    requires 200 <= len && nextIdx <= len
    ensures Accepted(r, len, nextIdx, align) != []
  {
    hide UsedSize;
    TruncatedIs(r, len);
  }

  /** A reader's cursor: once it is not behind the oldest record, it is at its record's index. */
  ghost predicate CursorOk(seqNo: nat, index: nat, firstSeq: nat, pos: seq<nat>) {
    firstSeq <= seqNo ==> seqNo < |pos| && index == pos[seqNo]
  }

  /** A strictly increasing sequence of numbers below bound. */
  ghost predicate Ascending(s: seq<nat>, bound: nat) {
    && (forall i, j | 0 <= i < j < |s| :: s[i] < s[j])
    && (forall i | 0 <= i < |s| :: s[i] < bound)
  }

  ghost function Range(lo: nat, hi: nat): (s: seq<nat>)
    requires lo <= hi
    ensures |s| == hi - lo && forall k | 0 <= k < hi - lo :: s[k] == lo + k
  {
    seq(hi - lo, k requires 0 <= k => lo + k)
  }

  lemma RangeEmpty(lo: nat)
    ensures Range(lo, lo) == []
  {
  }

  lemma RangeStep(lo: nat, hi: nat)
    requires lo <= hi
    ensures Range(lo, hi + 1) == Range(lo, hi) + [hi]
  {
  }

  lemma RangeJoin(a: nat, b: nat, c: nat)
    requires a <= b <= c
    ensures Range(a, b) + Range(b, c) == Range(a, c)
  {
  }

  /** One write to the console: a record, after a notice of how many messages were dropped if that is not 0. */
  datatype Line = Line(dropped: nat, rec: Rec)

  /** What the console should show for these records. */
  ghost function Lines(dropped: nat, recs: seq<Rec>, loglevel: nat): seq<Line> {
    if recs == [] then []
    else if recs[0].level > loglevel then Lines(dropped, recs[1..], loglevel)
    else [Line(dropped, recs[0])] + Lines(0, recs[1..], loglevel)
  }

  lemma LinesStep(dropped: nat, recs: seq<Rec>, k: nat, loglevel: nat)
    requires k < |recs|
    ensures Lines(dropped, recs[k..], loglevel) ==
            if recs[k].level > loglevel then Lines(dropped, recs[k + 1..], loglevel)
            else [Line(dropped, recs[k])] + Lines(0, recs[k + 1..], loglevel)
  {
    assert recs[k..][1..] == recs[k + 1..];
  }

  lemma LinesEnd(dropped: nat, recs: seq<Rec>, loglevel: nat)
    ensures Lines(dropped, recs[|recs|..], loglevel) == []
  {
  }

  /** The bytes s stand at position off. */
  ghost predicate Has(b: seq<byte>, off: nat, s: seq<byte>) {
    off + |s| <= |b| && b[off..off + |s|] == s
  }

  lemma HasKept(b: seq<byte>, b': seq<byte>, lo: nat, hi: nat)
    requires SameOutside(b, b', lo, hi)
    ensures forall off: nat, s: seq<byte> | Has(b, off, s) && (off + |s| <= lo || hi <= off) :: Has(b', off, s)
  {
  }

  lemma HasJoin(b: seq<byte>, off: nat, s: seq<byte>, t: seq<byte>)
    requires Has(b, off, s) && Has(b, off + |s|, t)
    ensures Has(b, off, s + t)
  {
  }

  /** The pieces that log_store writes make up the record. */
  lemma Assembled(b: seq<byte>, pos: nat, r: Rec, align: Align)
    requires Storable(r, align)
    requires Has(b, pos, Le(r.ts, 8)) && Has(b, pos + 8, Le(Size(r, align), 2))
    requires Has(b, pos + 10, Le(|r.text|, 2)) && Has(b, pos + 12, Le(|r.dict|, 2))
    requires Has(b, pos + 14, [r.facility]) && Has(b, pos + 15, [r.flags + 32 * r.level])
    requires Has(b, pos + HEADER, r.text) && Has(b, pos + HEADER + |r.text|, r.dict)
    requires Has(b, pos + HEADER + |r.text| + |r.dict|, Zeros(PadLen(HEADER + |r.text| + |r.dict|, align)))
    ensures StoredAt(b, pos, r, align)
  {
    hide Has;
    hide PadLen;
    hide Le;
    HasJoin(b, pos, Le(r.ts, 8), Le(Size(r, align), 2));
    var h2 := Le(r.ts, 8) + Le(Size(r, align), 2);
    HasJoin(b, pos, h2, Le(|r.text|, 2));
    var h3 := h2 + Le(|r.text|, 2);
    HasJoin(b, pos, h3, Le(|r.dict|, 2));
    var h4 := h3 + Le(|r.dict|, 2);
    HasJoin(b, pos, h4, [r.facility]);
    HasJoin(b, pos, h4 + [r.facility], [r.flags + 32 * r.level]);
    var h := Header(r, align);
    HasJoin(b, pos, h, r.text);
    HasJoin(b, pos, h + r.text, r.dict);
    HasJoin(b, pos, h + r.text + r.dict, Zeros(PadLen(HEADER + |r.text| + |r.dict|, align)));
    HasIsStored(b, pos, r, align);
  }

  lemma HasIsStored(b: seq<byte>, pos: nat, r: Rec, align: Align)
    requires Storable(r, align) && Has(b, pos, Encode(r, align))
    ensures StoredAt(b, pos, r, align)
  {
  }

  /** memcpy, and memset when src is constant */
  method CopyIn(a: array<byte>, off: nat, src: seq<byte>)
    requires off + |src| <= a.Length
    modifies a
    ensures SameOutside(old(a[..]), a[..], off, off + |src|)
    ensures Has(a[..], off, src)
  {
    var i := 0;
    while i < |src|
      invariant 0 <= i <= |src|
      invariant forall k | 0 <= k < a.Length && !(off <= k < off + i) :: a[k] == old(a[k])
      invariant forall k | 0 <= k < i :: a[off + k] == src[k]
    {
      a[off + i] := src[i];
      i := i + 1;
    }
  }

  /** A copy that stays inside [lo, hi) and keeps every piece it does not overlap. */
  method Put(a: array<byte>, off: nat, src: seq<byte>, ghost base: seq<byte>, ghost lo: nat, ghost hi: nat)
    requires SameOutside(base, a[..], lo, hi) && lo <= off && off + |src| <= hi && off + |src| <= a.Length
    modifies a
    ensures SameOutside(base, a[..], lo, hi) && Has(a[..], off, src)
    ensures forall o: nat, s: seq<byte> | Has(old(a[..]), o, s) && (o + |s| <= off || off + |src| <= o) :: Has(a[..], o, s)
  {
    CopyIn(a, off, src);
    HasKept(old(a[..]), a[..], off, off + |src|);
  }

  /** Fill in a record at position pos, in the order of log_store: text, its length, ... */
  method FillMessage(a: array<byte>, pos: nat, text: seq<byte>, truncMsg: seq<byte>, dict: seq<byte>,
                     facility: byte, level: nat, flags: nat, ts: nat, padLen: nat, size: nat, align: Align)
    requires level < 8 && flags < 32
    requires var r := Rec(ts, facility, flags, level, text + truncMsg, dict);
             && Storable(r, align) && size == Size(r, align) && pos + size <= a.Length
             && padLen == PadLen(HEADER + |r.text| + |r.dict|, align)
    modifies a
    ensures SameOutside(old(a[..]), a[..], pos, pos + size)
    ensures StoredAt(a[..], pos, Rec(ts, facility, flags, level, text + truncMsg, dict), align)
  {
    hide Has;
    hide SameOutside;
    hide Le;
    hide PadLen;
    hide StoredAt;
    hide Encode;
    ghost var b := a[..];
    SameRefl(b, pos, pos + size);
    FillText(a, pos, text, truncMsg, b, pos + size);
    FillRest(a, pos, Rec(ts, facility, flags, level, text + truncMsg, dict), padLen, size, align, b);
  }

  method FillText(a: array<byte>, pos: nat, text: seq<byte>, truncMsg: seq<byte>, ghost b: seq<byte>, ghost hi: nat)
    requires pos + HEADER + |text| + |truncMsg| <= hi <= a.Length && SameOutside(b, a[..], pos, hi)
    modifies a
    ensures SameOutside(b, a[..], pos, hi)
    ensures Has(a[..], pos + 10, Le(|text + truncMsg|, 2)) && Has(a[..], pos + HEADER, text + truncMsg)
  {
    hide Has;
    hide SameOutside;
    hide Le;
    Put(a, pos + HEADER, text, b, pos, hi);
    Put(a, pos + 10, Le(|text|, 2), b, pos, hi);
    if truncMsg != [] {
      Put(a, pos + HEADER + |text|, truncMsg, b, pos, hi);
      Put(a, pos + 10, Le(|text| + |truncMsg|, 2), b, pos, hi);
      HasJoin(a[..], pos + HEADER, text, truncMsg);
    } else {
      assert text + truncMsg == text;
    }
  }

  /** ... then dictionary, its length, facility, level and flags, time stamp, padding and size. */
  method FillRest(a: array<byte>, pos: nat, r: Rec, padLen: nat, size: nat, align: Align, ghost b: seq<byte>)
    requires Storable(r, align) && size == Size(r, align) && pos + size <= a.Length
    requires padLen == PadLen(HEADER + |r.text| + |r.dict|, align)
    requires Has(a[..], pos + 10, Le(|r.text|, 2)) && Has(a[..], pos + HEADER, r.text)
    requires SameOutside(b, a[..], pos, pos + size)
    modifies a
    ensures SameOutside(b, a[..], pos, pos + size) && StoredAt(a[..], pos, r, align)
  {
    hide Has;
    hide SameOutside;
    hide Le;
    hide PadLen;
    hide StoredAt;
    hide Encode;
    ghost var hi := pos + size;
    Put(a, pos + HEADER + |r.text|, r.dict, b, pos, hi);
    Put(a, pos + 12, Le(|r.dict|, 2), b, pos, hi);
    FillHeader(a, pos, r, padLen, size, align, b);
    Assembled(a[..], pos, r, align);
  }

  method FillHeader(a: array<byte>, pos: nat, r: Rec, padLen: nat, size: nat, align: Align, ghost b: seq<byte>)
    requires Storable(r, align) && size == Size(r, align) && pos + size <= a.Length
    requires padLen == PadLen(HEADER + |r.text| + |r.dict|, align)
    requires SameOutside(b, a[..], pos, pos + size)
    requires Has(a[..], pos + 10, Le(|r.text|, 2)) && Has(a[..], pos + HEADER, r.text)
    requires Has(a[..], pos + 12, Le(|r.dict|, 2)) && Has(a[..], pos + HEADER + |r.text|, r.dict)
    modifies a
    ensures SameOutside(b, a[..], pos, pos + size)
    ensures Has(a[..], pos + 10, Le(|r.text|, 2)) && Has(a[..], pos + HEADER, r.text)
    ensures Has(a[..], pos + 12, Le(|r.dict|, 2)) && Has(a[..], pos + HEADER + |r.text|, r.dict)
    ensures Has(a[..], pos, Le(r.ts, 8)) && Has(a[..], pos + 8, Le(size, 2))
    ensures Has(a[..], pos + 14, [r.facility]) && Has(a[..], pos + 15, [r.flags + 32 * r.level])
    ensures Has(a[..], pos + HEADER + |r.text| + |r.dict|, Zeros(padLen))
  {
    hide Has;
    hide SameOutside;
    hide Le;
    hide PadLen;
    ghost var hi := pos + size;
    var dictAt := pos + HEADER + |r.text|;
    Put(a, pos + 14, [r.facility], b, pos, hi);
    Put(a, pos + 15, [r.flags + 32 * r.level], b, pos, hi);
    Put(a, pos, Le(r.ts, 8), b, pos, hi);
    Put(a, dictAt + |r.dict|, Zeros(padLen), b, pos, hi);
    Put(a, pos + 8, Le(size, 2), b, pos, hi);
  }

  lemma SameRefl(b: seq<byte>, lo: nat, hi: nat)
    ensures SameOutside(b, b, lo, hi)
  {
  }

  class Log {
    const buf: array<byte>
    const align: Align
    var firstSeq: nat
    var firstIdx: nat
    var nextSeq: nat
    var nextIdx: nat
    var consoleSeq: nat
    var consoleIdx: nat
    var clearSeq: nat
    var clearIdx: nat
    ghost var stored: seq<Rec>     // every record ever stored
    ghost var pos: seq<nat>        // the index each of them was given, and nextIdx
    ghost var wrap: nat            // which live record follows the wrap marker
    ghost var visited: seq<nat>    // the numbers of the records the console has processed

    /** The records numbered firstSeq .. nextSeq - 1. */
    ghost function Live(): seq<Rec>
      requires firstSeq <= |stored|
      reads this
    {
      stored[firstSeq..]
    }

    /** The number of the record that follows the wrap marker. */
    ghost function Marked(): nat
      reads this
    {
      firstSeq + wrap
    }

    ghost predicate Valid()
      reads this, buf
    {
      && HEADER <= buf.Length
      && firstSeq <= nextSeq == |stored| && |pos| == nextSeq + 1
      && Laid(buf[..], Live(), pos[firstSeq..], wrap, align)
      && firstIdx == pos[firstSeq] && nextIdx == pos[nextSeq]
      && consoleSeq <= nextSeq && clearSeq <= nextSeq
      && CursorOk(consoleSeq, consoleIdx, firstSeq, pos)
      && CursorOk(clearSeq, clearIdx, firstSeq, pos)
      && Ascending(visited, consoleSeq)
    }

    constructor (buf: array<byte>, align: Align)
      requires buf.Length >= HEADER
      ensures Valid() && stored == [] && this.buf == buf
    {
      this.buf, this.align := buf, align;
      firstSeq, firstIdx, nextSeq, nextIdx := 0, 0, 0, 0;
      consoleSeq, consoleIdx, clearSeq, clearIdx := 0, 0, 0, 0;
      stored, pos, wrap, visited := [], [0], 0, [];
    }

    lemma LaidFacts()
      requires Valid()
      ensures nextIdx + HEADER <= buf.Length && firstIdx + HEADER <= buf.Length
      ensures firstSeq < nextSeq ==> if wrap == nextSeq - firstSeq then firstIdx < nextIdx else nextIdx < firstIdx
      ensures firstSeq == nextSeq ==> wrap == 0
    {
      hide StoredAt;
      hide LenAt;
      if firstSeq < nextSeq && wrap == nextSeq - firstSeq {
        var idx := pos[firstSeq..];
        assert RecordOk(buf[..], Live(), idx, wrap, align, 0);
        assert idx[1] <= idx[wrap];
      }
    }

    /** One turn of the eviction loop. */
    method EvictOne()
      requires Valid() && firstSeq < nextSeq
      modifies this`firstSeq, this`firstIdx, this`wrap
      ensures Valid() && firstSeq == old(firstSeq) + 1 && wrap == TailWrap(nextSeq - old(firstSeq), old(wrap))
    {
      hide Laid;
      LaidFacts();
      ghost var idx := pos[firstSeq..];
      WalkStep(buf[..], Live(), idx, wrap, align, 0);
      EvictFirst(buf[..], Live(), idx, wrap, align);
      assert stored[firstSeq + 1..] == Live()[1..] && pos[firstSeq + 1..] == idx[1..];
      firstIdx := LogNext(buf[..], firstIdx);
      wrap := TailWrap(|Live()|, wrap);
      firstSeq := firstSeq + 1;
    }

    /** The loop of log_make_free_space. */
    method DropOldest(size: nat)
      requires Valid()
      modifies this`firstSeq, this`firstIdx, this`wrap
      ensures Valid() && old(firstSeq) <= firstSeq && nextIdx <= buf.Length
      ensures forall s | old(firstSeq) <= s < firstSeq :: Cramped(buf.Length, pos, old(Marked()), s, size)
      ensures firstSeq == nextSeq || Room(buf.Length, pos[firstSeq..], wrap, size)
    {
      hide Laid;
      hide HasSpace;
      hide Room;
      LaidFacts();
      SpaceIsRoom(buf[..], Live(), pos[firstSeq..], wrap, align, size);
      while firstSeq < nextSeq && !HasSpace(buf.Length, firstIdx, nextIdx, size, false)
        invariant Valid() && nextIdx <= buf.Length && old(firstSeq) <= firstSeq
        invariant wrap == WrapFrom(old(Marked()), firstSeq, nextSeq)
        invariant forall s | old(firstSeq) <= s < firstSeq :: Cramped(buf.Length, pos, old(Marked()), s, size)
        invariant HasSpace(buf.Length, firstIdx, nextIdx, size, firstSeq == nextSeq) <==>
                    Room(buf.Length, pos[firstSeq..], wrap, size)
        decreases nextSeq - firstSeq
      {
        EvictOne();
        LaidFacts();
        SpaceIsRoom(buf[..], Live(), pos[firstSeq..], wrap, align, size);
      }
    }

    /**
     log_make_free_space: drops the oldest records one by one, and no more of them than needed.
     It fails exactly when the record does not even fit the emptied buffer.
     */
    method MakeFreeSpace(size: nat) returns (ok: bool)
      requires Valid()
      modifies this`firstSeq, this`firstIdx, this`wrap, this`clearSeq, this`clearIdx
      ensures Valid() && firstSeq <= clearSeq == Max(old(clearSeq), firstSeq)
      ensures old(firstSeq) <= firstSeq && nextIdx <= buf.Length
      ensures forall s | old(firstSeq) <= s < firstSeq :: Cramped(buf.Length, pos, old(Marked()), s, size)
      ensures ok == Room(buf.Length, pos[firstSeq..], wrap, size) == FitsEmpty(buf.Length, nextIdx, size)
      ensures ok == HasSpace(buf.Length, firstIdx, nextIdx, size, firstSeq == nextSeq)
      ensures !ok ==> firstSeq == nextSeq
    {
      hide Laid;
      hide Room;
      hide HasSpace;
      DropOldest(size);
      LaidFacts();
      SpaceIsRoom(buf[..], Live(), pos[firstSeq..], wrap, align, size);
      if clearSeq < firstSeq {
        clearSeq, clearIdx := firstSeq, firstIdx;
      }
      ok := HasSpace(buf.Length, firstIdx, nextIdx, size, firstSeq == nextSeq);
    }

    /** The ghost bookkeeping behind "insert message". */
    ghost method NoteInsert(r: Rec, next: nat, w': nat)
      requires firstSeq <= |stored| && |pos| == |stored| + 1 && HEADER <= buf.Length
      requires nextSeq == |stored| + 1 && nextIdx == next
      requires firstIdx == pos[firstSeq] && consoleSeq <= |stored| && clearSeq <= |stored|
      requires CursorOk(consoleSeq, consoleIdx, firstSeq, pos) && CursorOk(clearSeq, clearIdx, firstSeq, pos)
      requires Ascending(visited, consoleSeq)
      requires Laid(buf[..], Live() + [r], pos[firstSeq..] + [next], w', align)
      modifies this`stored, this`pos, this`wrap
      ensures Valid() && stored == old(stored) + [r] && pos == old(pos) + [next]
    {
      hide Laid;
      assert (stored + [r])[firstSeq..] == Live() + [r];
      assert (pos + [next])[firstSeq..] == pos[firstSeq..] + [next];
      stored, pos, wrap := stored + [r], pos + [next], w';
    }

    /** The second half of log_store: write the record behind the last one or, after a marker, at the start. */
    method Insert(text: seq<byte>, truncMsg: seq<byte>, dict: seq<byte>, facility: byte, level: nat, flags: nat,
                  ts: nat, padLen: nat, size: nat)
      requires level < 8 && flags < 32
      requires var r := Rec(ts, facility, flags, level, text + truncMsg, dict);
               && Storable(r, align) && size == Size(r, align)
               && padLen == PadLen(HEADER + |r.text| + |r.dict|, align)
      requires Valid() && nextIdx <= buf.Length
      requires HasSpace(buf.Length, firstIdx, nextIdx, size, firstSeq == nextSeq)
      modifies buf, this`nextIdx, this`nextSeq, this`stored, this`pos, this`wrap
      ensures Valid() && old(pos) <= pos
      ensures stored == old(stored) + [Rec(ts, facility, flags, level, text + truncMsg, dict)]
    {
      hide Laid;
      hide StoredAt;
      hide SameOutside;
      hide Size;
      hide Storable;
      LaidFacts();
      ghost var r := Rec(ts, facility, flags, level, text + truncMsg, dict);
      ghost var idx := pos[firstSeq..];
      ghost var b, w' := buf[..], |Live()|;
      if nextIdx + size + HEADER > buf.Length {
        CopyIn(buf, nextIdx, Zeros(HEADER));
        nextIdx := 0;
        ghost var b1 := buf[..];
        FillMessage(buf, nextIdx, text, truncMsg, dict, facility, level, flags, ts, padLen, size, align);
        ZeroLen(b1, idx[|Live()|]);
        AppendWrapped(b, b1, buf[..], Live(), idx, align, r);
      } else {
        FillMessage(buf, nextIdx, text, truncMsg, dict, facility, level, flags, ts, padLen, size, align);
        AppendAhead(b, buf[..], Live(), idx, wrap, align, r);
        w' := if wrap == |Live()| then wrap + 1 else wrap;
      }
      nextIdx := nextIdx + size;
      nextSeq := nextSeq + 1;
      NoteInsert(r, nextIdx, w');
    }

    /**
     log_store: the log takes the message whole, else truncated, else not at all, and which of these depends on
     the position of nextIdx alone.  A message taken whole costs no more old records than it needs; any other
     message empties the log.
     */
    method LogStore(facility: nat, level: nat, flags: nat, ts: nat, dict: seq<byte>, text: seq<byte>, clock: nat)
      returns (n: nat)
      requires Valid() && Sized(text, dict) && ts < Pow256(8) && clock < Pow256(8)
      modifies this`firstSeq, this`firstIdx, this`nextSeq, this`nextIdx, this`clearSeq, this`clearIdx, buf
      modifies this`stored, this`pos, this`wrap
      ensures Valid() && old(pos) <= pos && old(nextIdx) <= buf.Length
      ensures var r := Message(facility, level, flags, ts, dict, text, clock);
              var taken := Accepted(r, buf.Length, old(nextIdx), align);
              && stored == old(stored) + taken
              && n == (if taken == [] then 0 else |taken[0].text|)
              && old(firstSeq) <= firstSeq <= old(nextSeq)
              && (if FitsEmpty(buf.Length, old(nextIdx), Size(r, align)) then
                    forall s | old(firstSeq) <= s < firstSeq ::
                      Cramped(buf.Length, old(pos), old(Marked()), s, Size(r, align))
                  else firstSeq == old(nextSeq))
      ensures clearSeq == Max(old(clearSeq), firstSeq)
    {
      hide Laid;
      hide UsedSize;
      hide PadLen;
      hide FitsEmpty;
      hide CursorOk;
      hide Room;
      hide HasSpace;
      hide Cramped;
      ghost var r := Message(facility, level, flags, ts, dict, text, clock);
      StorableMessage(r, buf.Length, align);
      var keep, truncMsg, dict' := text, [], dict;
      var padLen := PadLen(HEADER + |text| + |dict|, align);
      var size := UsedSize(|text|, |dict|, align);
      var ok := MakeFreeSpace(size);
      if !ok {
        keep, truncMsg, dict' := TruncateMsg(text, buf.Length), TRUNC_MSG, [];
        padLen := PadLen(HEADER + |keep| + |truncMsg|, align);
        size := UsedSize(|keep| + |truncMsg|, 0, align);
        ok := MakeFreeSpace(size);
        if !ok {
          return 0;
        }
      }
      assert text + [] == text;
      Insert(keep, truncMsg, dict', facility % 256, level % 8, flags % 32, if ts > 0 then ts else clock, padLen, size);
      return |keep| + |truncMsg|;
    }

    /** Following log_next from the oldest record yields exactly the records firstSeq .. nextSeq - 1, intact. */
    lemma WalkIsLive()
      requires Valid()
      ensures Walk(buf[..], firstIdx, nextSeq - firstSeq) == stored[firstSeq..]
    {
      hide Laid;
      WalkYields(buf[..], Live(), pos[firstSeq..], wrap, align, 0);
    }

    /** The record at the console's cursor. */
    method ConsoleMsg() returns (r: Rec)
      requires Valid() && firstSeq <= consoleSeq < nextSeq
      ensures consoleIdx + HEADER <= buf.Length && r == stored[consoleSeq]
      ensures LogNext(buf[..], consoleIdx) == pos[consoleSeq + 1]
    {
      hide StoredAt;
      hide Readable;
      hide Decode;
      WalkStep(buf[..], Live(), pos[firstSeq..], wrap, align, consoleSeq - firstSeq);
      r := Decode(buf[..], LogFromIdx(buf[..], consoleIdx));
    }

    method ConsoleAdvance()
      requires Valid() && firstSeq <= consoleSeq < nextSeq && consoleIdx + HEADER <= buf.Length
      requires LogNext(buf[..], consoleIdx) == pos[consoleSeq + 1]
      modifies this`consoleSeq, this`consoleIdx, this`visited
      ensures Valid() && consoleSeq == old(consoleSeq) + 1 && visited == old(visited) + [old(consoleSeq)]
    {
      hide Laid;
      hide LogNext;
      consoleIdx := LogNext(buf[..], consoleIdx);
      visited := visited + [consoleSeq];
      consoleSeq := consoleSeq + 1;
    }

    /** From the label skip on: pass over the records above the console log level. */
    method SkipSuppressed(loglevel: nat, ghost dropped: nat)
      requires Valid() && firstSeq <= consoleSeq
      modifies this`consoleSeq, this`consoleIdx, this`visited
      ensures Valid() && old(consoleSeq) <= consoleSeq
      ensures visited == old(visited) + Range(old(consoleSeq), consoleSeq)
      ensures Lines(dropped, stored[old(consoleSeq)..], loglevel) == Lines(dropped, stored[consoleSeq..], loglevel)
      ensures consoleSeq < nextSeq ==> stored[consoleSeq].level <= loglevel
    {
      hide Laid;
      hide CursorOk;
      hide Ascending;
      RangeEmpty(consoleSeq);
      while consoleSeq != nextSeq
        invariant Valid() && old(consoleSeq) <= consoleSeq
        invariant visited == old(visited) + Range(old(consoleSeq), consoleSeq)
        invariant Lines(dropped, stored[old(consoleSeq)..], loglevel) == Lines(dropped, stored[consoleSeq..], loglevel)
        decreases nextSeq - consoleSeq
      {
        var msg := ConsoleMsg();
        if msg.level <= loglevel {
          return;
        }
        LinesStep(dropped, stored, consoleSeq, loglevel);
        RangeStep(old(consoleSeq), consoleSeq);
        ConsoleAdvance();
      }
    }

    /** One turn of the console loop: the next record to print, if there is one. */
    method PrintNext(loglevel: nat) returns (line: seq<Line>)
      requires Valid()
      modifies this`consoleSeq, this`consoleIdx, this`visited
      ensures Valid()
      ensures var start := Max(old(consoleSeq), firstSeq);
              && start <= consoleSeq
              && visited == old(visited) + Range(start, consoleSeq)
              && Lines(start - old(consoleSeq), stored[start..], loglevel) == line + Lines(0, stored[consoleSeq..], loglevel)
              && (if line == [] then consoleSeq == nextSeq else start < consoleSeq)
    {
      hide Laid;
      hide CursorOk;
      hide Ascending;
      hide Lines;
      hide Range;
      var dropped := 0;
      if consoleSeq < firstSeq {
        dropped := firstSeq - consoleSeq;
        CatchUp();
      }
      ghost var start := consoleSeq;
      SkipSuppressed(loglevel, dropped);
      if consoleSeq == nextSeq {
        LinesEnd(dropped, stored, loglevel);
        LinesEnd(0, stored, loglevel);
        return [];
      }
      var msg := ConsoleMsg();
      LinesStep(dropped, stored, consoleSeq, loglevel);
      RangeStep(start, consoleSeq);
      ConsoleAdvance();
      return [Line(dropped, msg)];
    }

    /**
     console_write: processes each record from max(consoleSeq, firstSeq) up to nextSeq once, in order, and prints
     those that the log level lets through.  The notice of dropped messages goes out with the first printed record.
     */
    method ConsoleWrite(loglevel: nat) returns (out: seq<Line>)
      requires Valid()
      modifies this`consoleSeq, this`consoleIdx, this`visited
      ensures Valid() && consoleSeq == nextSeq
      ensures var start := Max(old(consoleSeq), firstSeq);
              && visited == old(visited) + Range(start, nextSeq)
              && out == Lines(start - old(consoleSeq), stored[start..], loglevel)
    {
      hide Valid;
      hide Lines;
      hide Range;
      ghost var start := Max(consoleSeq, firstSeq);
      out := [];
      var line := PrintNext(loglevel);
      ConsoleFacts();
      while line != []
        invariant Valid() && firstSeq <= start <= consoleSeq <= nextSeq == |stored|
        invariant visited == old(visited) + Range(start, consoleSeq)
        invariant Lines(start - old(consoleSeq), stored[start..], loglevel) ==
                  out + line + Lines(0, stored[consoleSeq..], loglevel)
        invariant line == [] ==> consoleSeq == nextSeq
        decreases nextSeq - consoleSeq, |line|
      {
        out := out + line;
        ghost var from := consoleSeq;
        line := PrintNext(loglevel);
        ConsoleFacts();
        RangeJoin(start, from, consoleSeq);
      }
      LinesEnd(0, stored, loglevel);
    }

    lemma ConsoleFacts()
      requires Valid()
      ensures firstSeq <= nextSeq == |stored| && consoleSeq <= nextSeq
    {
    }

    /** Messages are gone: move to the first one. */
    method CatchUp()
      requires Valid() && consoleSeq < firstSeq
      modifies this`consoleSeq, this`consoleIdx
      ensures Valid() && consoleSeq == firstSeq
    {
      hide Laid;
      consoleSeq, consoleIdx := firstSeq, firstIdx;
    }
  }

  lemma ZeroLen(b: seq<byte>, i: nat)
    requires Has(b, i, Zeros(HEADER))
    ensures LenAt(b, i) == 0
  {
    assert b[i + 8] == b[i..i + HEADER][8] && b[i + 9] == b[i..i + HEADER][9];
  }
}
