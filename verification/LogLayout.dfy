/**
 How live records lie in the log buffer: a run of adjacent records, possibly broken once by a
 zero-length wrap marker after which the run goes on at the start of the buffer.
 */
module LogLayout {
  import opened LogRecord

  /** log_next: the index of the record after the one that index i stands for. */
  function LogNext(b: seq<byte>, i: nat): nat
    requires HEADER <= |b| && i + HEADER <= |b|
  {
    if LenAt(b, i) == 0 then LenAt(b, 0) else i + LenAt(b, i)
  }

  /** log_from_idx: the position of the record that index i stands for. */
  function LogFromIdx(b: seq<byte>, i: nat): nat
    requires i + HEADER <= |b|
  {
    if LenAt(b, i) == 0 then 0 else i
  }

  /**
   Record k has index idx[k].  It stands there, except that index idx[w] holds the wrap marker and
   record w stands at the start of the buffer; w == |recs| when the run is unbroken.
   */
  ghost predicate RecordOk(b: seq<byte>, recs: seq<Rec>, idx: seq<nat>, w: nat, align: Align, k: nat) {
    && k < |recs| && |idx| == |recs| + 1 && idx[k] + HEADER <= |b|
    && var pos := if k == w then 0 else idx[k];
    && StoredAt(b, pos, recs[k], align)
    && idx[k + 1] == pos + Size(recs[k], align)
    && (k == w ==> LenAt(b, idx[k]) == 0)
  }

  ghost predicate Ordered(idx: seq<nat>, lo: int, hi: int) {
    forall i, j | 0 <= i < |idx| && 0 <= j < |idx| && lo <= i <= j <= hi :: idx[i] <= idx[j]
  }

  ghost predicate Laid(b: seq<byte>, recs: seq<Rec>, idx: seq<nat>, w: nat, align: Align) {
    var n := |recs|;
    && |idx| == n + 1 && w <= n
    && (forall k: nat | k < n :: RecordOk(b, recs, idx, w, align, k))
    && (forall k | 0 <= k <= n :: idx[k] + HEADER <= |b|)
    && Ordered(idx, 0, w) && Ordered(idx, w + 1, n)
    && (w < n ==> idx[n] + HEADER <= idx[0])
  }

  /** Walking with log_next and reading with log_from_idx visits the records in order. */
  lemma WalkStep(b: seq<byte>, recs: seq<Rec>, idx: seq<nat>, w: nat, align: Align, k: nat)
    requires Laid(b, recs, idx, w, align) && k < |recs|
    ensures LogNext(b, idx[k]) == idx[k + 1]
    ensures var p := LogFromIdx(b, idx[k]); Readable(b, p) && Decode(b, p) == recs[k]
  {
    hide Encode;
    hide Decode;
    hide Ordered;
    hide Readable;
    assert RecordOk(b, recs, idx, w, align, k);
    StoredReadsBack(b, if k == w then 0 else idx[k], recs[k], align);
  }

  /** What a reader sees that starts at index i and follows log_next for n records. */
  function Walk(b: seq<byte>, i: nat, n: nat): seq<Rec>
    decreases n
  {
    if n == 0 || i + HEADER > |b| || !Readable(b, LogFromIdx(b, i)) then []
    else [Decode(b, LogFromIdx(b, i))] + Walk(b, LogNext(b, i), n - 1)
  }

  /** A walk from the index of record k yields exactly the records from k on. */
  lemma {:induction false} WalkYields(b: seq<byte>, recs: seq<Rec>, idx: seq<nat>, w: nat, align: Align, k: nat)
    requires Laid(b, recs, idx, w, align) && k <= |recs|
    ensures Walk(b, idx[k], |recs| - k) == recs[k..]
    decreases |recs| - k
  {
    hide Decode;
    hide Readable;
    hide RecordOk;
    hide Ordered;
    hide LogNext;
    hide LogFromIdx;
    if k < |recs| {
      WalkStep(b, recs, idx, w, align, k);
      WalkYields(b, recs, idx, w, align, k + 1);
      assert recs[k..] == [recs[k]] + recs[k + 1..];
    }
  }

  function TailWrap(n: nat, w: nat): nat
    requires n > 0
  {
    if w == 0 || w == n then n - 1 else w - 1
  }

  /** Dropping the oldest record leaves the rest laid out as before. */
  lemma EvictFirst(b: seq<byte>, recs: seq<Rec>, idx: seq<nat>, w: nat, align: Align)
    requires Laid(b, recs, idx, w, align) && recs != []
    ensures Laid(b, recs[1..], idx[1..], TailWrap(|recs|, w), align)
  {
    hide StoredAt;
    hide LenAt;
    hide Size;
    var recs', idx', w' := recs[1..], idx[1..], TailWrap(|recs|, w);
    forall k: nat | k < |recs'| ensures RecordOk(b, recs', idx', w', align, k) {
      assert RecordOk(b, recs, idx, w, align, k + 1);
    }
    assert forall k | 0 <= k < |idx'| :: idx'[k] == idx[k + 1];
  }

  /** The bytes outside [lo, hi) are unchanged. */
  ghost predicate SameOutside(b: seq<byte>, b': seq<byte>, lo: nat, hi: nat) {
    |b'| == |b| && forall k | 0 <= k < |b| && !(lo <= k < hi) :: b'[k] == b[k]
  }

  /** A record none of whose bytes, nor those of its marker, are written stays in place. */
  lemma RecordFrame(b: seq<byte>, b': seq<byte>, recs: seq<Rec>, idx: seq<nat>, w: nat, align: Align, k: nat,
                    recs': seq<Rec>, idx': seq<nat>, w': nat)
    requires RecordOk(b, recs, idx, w, align, k) && |b'| == |b|
    requires recs <= recs' && |idx'| == |recs'| + 1 && idx <= idx' && (k == w <==> k == w')
    requires var pos := if k == w then 0 else idx[k]; forall j | pos <= j < idx[k + 1] :: b'[j] == b[j]
    requires k == w ==> forall j | idx[k] <= j < idx[k] + HEADER :: b'[j] == b[j]
    ensures RecordOk(b', recs', idx', w', align, k)
  {
    hide Encode;
    hide Size;
    StoredFrame(b, b', if k == w then 0 else idx[k], recs[k], align);
  }

  /** Where the next record may go without touching a live record or marker. */
  ghost predicate RoomAhead(len: nat, recs: seq<Rec>, idx: seq<nat>, w: nat, size: nat) {
    && |idx| == |recs| + 1
    && idx[|recs|] + size + HEADER <= (if w < |recs| then idx[0] else len)
  }

  // ---------------------------------------------------------------------------
  // Room for a record

  /** Byte j belongs to record k or to the marker in front of it. */
  ghost predicate ByteOf(idx: seq<nat>, w: nat, k: nat, j: nat) {
    && k + 1 < |idx|
    && ((if k == w then 0 else idx[k]) <= j < idx[k + 1] || (k == w && idx[k] <= j < idx[k] + HEADER))
  }

  /** The bytes from lo to hi - 1 belong to no record and no marker. */
  ghost predicate Unused(idx: seq<nat>, w: nat, lo: nat, hi: nat) {
    forall k: nat, j: nat | ByteOf(idx, w, k, j) :: !(lo <= j < hi)
  }

  /**
   There is room for a record and a header, the latter for a marker to come: unused bytes right behind the last record,
   or at the start of the buffer and in front of the marker that the next index would get.
   */
  ghost predicate Room(len: nat, idx: seq<nat>, w: nat, size: nat)
    requires idx != []
  {
    var next, need := idx[|idx| - 1], size + HEADER;
    (next + need <= len && Unused(idx, w, next, next + need)) || (need <= next && Unused(idx, w, 0, need))
  }

  /** The room behind the last record ends at the end of the buffer or, in a broken run, at the oldest record. */
  lemma RoomBehind(b: seq<byte>, recs: seq<Rec>, idx: seq<nat>, w: nat, align: Align, size: nat)
    requires Laid(b, recs, idx, w, align)
    ensures var next, need := idx[|recs|], size + HEADER;
            next + need <= |b| && Unused(idx, w, next, next + need) <==> RoomAhead(|b|, recs, idx, w, size)
  {
    hide StoredAt;
    hide LenAt;
    hide Size;
    var n, next := |recs|, idx[|recs|];
    if RoomAhead(|b|, recs, idx, w, size) {
      forall k: nat, j: nat | ByteOf(idx, w, k, j) ensures !(next <= j < next + size + HEADER) {
        AheadIsClear(|b|, recs, idx, w, align, size, b, k);
      }
    } else if w < n {
      OldestByte(b, recs, idx, w, align);
    }
  }

  /** The room at the start of the buffer ends at the oldest record, and there is none in a broken run. */
  lemma RoomInFront(b: seq<byte>, recs: seq<Rec>, idx: seq<nat>, w: nat, align: Align, size: nat)
    requires Laid(b, recs, idx, w, align)
    ensures var next, need := idx[|recs|], size + HEADER;
            need <= next && Unused(idx, w, 0, need) <==> w == |recs| && need <= idx[0]
  {
    hide StoredAt;
    hide LenAt;
    var n, next := |recs|, idx[|recs|];
    if w < n {
      assert RecordOk(b, recs, idx, w, align, w);
      assert ByteOf(idx, w, w, 0);
    } else if n > 0 {
      OldestByte(b, recs, idx, w, align);
      forall k: nat, j: nat | ByteOf(idx, w, k, j) ensures idx[0] <= j {
        assert RecordOk(b, recs, idx, w, align, k);
      }
    }
  }

  /** The oldest record, or the marker in front of it, begins at its index. */
  lemma OldestByte(b: seq<byte>, recs: seq<Rec>, idx: seq<nat>, w: nat, align: Align)
    requires Laid(b, recs, idx, w, align) && recs != []
    ensures ByteOf(idx, w, 0, idx[0])
  {
    hide StoredAt;
    hide LenAt;
    assert RecordOk(b, recs, idx, w, align, 0);
  }

  /** Appending right behind the last record. */
  lemma AppendAhead(b: seq<byte>, b': seq<byte>, recs: seq<Rec>, idx: seq<nat>, w: nat, align: Align, r: Rec)
    requires Laid(b, recs, idx, w, align) && Storable(r, align) && RoomAhead(|b|, recs, idx, w, Size(r, align))
    requires var next := idx[|recs|];
             SameOutside(b, b', next, next + Size(r, align)) && StoredAt(b', next, r, align)
    ensures Laid(b', recs + [r], idx + [idx[|recs|] + Size(r, align)], if w == |recs| then w + 1 else w, align)
  {
    hide Encode;
    hide Size;
    hide LenAt;
    hide Ordered;
    var n, next := |recs|, idx[|recs|];
    var recs', idx', w' := recs + [r], idx + [next + Size(r, align)], if w == n then w + 1 else w;
    forall k: nat | k < n ensures RecordOk(b', recs', idx', w', align, k) {
      assert RecordOk(b, recs, idx, w, align, k);
      AheadIsClear(|b|, recs, idx, w, align, Size(r, align), b, k);
      RecordFrame(b, b', recs, idx, w, align, k, recs', idx', w');
    }
    assert RecordOk(b', recs', idx', w', align, n);
    AheadOrdered(idx, n, w, idx', w');
  }

  lemma AheadOrdered(idx: seq<nat>, n: nat, w: nat, idx': seq<nat>, w': nat)
    requires |idx| == n + 1 && |idx'| == n + 2 && idx <= idx' && idx[n] <= idx'[n + 1] && w <= n
    requires Ordered(idx, 0, w) && Ordered(idx, w + 1, n) && w' == if w == n then w + 1 else w
    ensures Ordered(idx', 0, w') && Ordered(idx', w' + 1, n + 1)
  {
  }

  /** The space ahead overlaps neither record k nor its marker. */
  lemma AheadIsClear(len: nat, recs: seq<Rec>, idx: seq<nat>, w: nat, align: Align, size: nat, b: seq<byte>, k: nat)
    requires Laid(b, recs, idx, w, align) && |b| == len && RoomAhead(len, recs, idx, w, size) && k < |recs|
    ensures var next := idx[|recs|];
            if k < w && w < |recs| then next + size + HEADER <= idx[k] else idx[k + 1] <= next
    ensures k == w ==> idx[|recs|] + size + HEADER <= idx[k]
  {
    var n := |recs|;
    assert RecordOk(b, recs, idx, w, align, k);
    if k < w {
      assert idx[0] <= idx[k];
      assert w == n ==> idx[k + 1] <= idx[n];
    } else {
      assert idx[0] <= idx[w];
      assert idx[k + 1] <= idx[n];
    }
  }

  /** Writing a marker behind the last record and the new record at the start of the buffer. */
  lemma AppendWrapped(b: seq<byte>, b1: seq<byte>, b': seq<byte>, recs: seq<Rec>, idx: seq<nat>, align: Align, r: Rec)
    requires Laid(b, recs, idx, |recs|, align) && Storable(r, align) && Size(r, align) + HEADER <= idx[0]
    requires SameOutside(b, b1, idx[|recs|], idx[|recs|] + HEADER) && LenAt(b1, idx[|recs|]) == 0
    requires SameOutside(b1, b', 0, Size(r, align)) && StoredAt(b', 0, r, align)
    ensures Laid(b', recs + [r], idx + [Size(r, align)], |recs|, align)
  {
    hide Encode;
    hide Size;
    var n, next := |recs|, idx[|recs|];
    var recs', idx' := recs + [r], idx + [Size(r, align)];
    assert idx[0] <= next;
    forall k: nat | k < n ensures RecordOk(b', recs', idx', n, align, k) {
      assert RecordOk(b, recs, idx, n, align, k);
      assert idx[0] <= idx[k] && idx[k + 1] <= next;
      RecordFrame(b, b', recs, idx, n, align, k, recs', idx', n);
    }
    assert RecordOk(b', recs', idx', n, align, n);
  }
}
