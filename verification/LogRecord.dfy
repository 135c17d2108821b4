/** The byte layout of one record of the kernel log: struct printf_log followed by its text. */
module LogRecord {

  type byte = x: int | 0 <= x < 256

  /** LOG_ALIGN, the alignment of the header: 4 where unaligned access is cheap, otherwise 8. */
  type Align = a: nat | a == 4 || a == 8 witness 4

  const HEADER: nat := 16   // sizeof(struct printf_log)

  /** What a record says, apart from its length fields. */
  datatype Rec = Rec(ts: nat, facility: nat, flags: nat, level: nat, text: seq<byte>, dict: seq<byte>)

  // ---------------------------------------------------------------------------
  // Little-endian integers

  function Le(n: nat, k: nat): (s: seq<byte>)
    ensures |s| == k
  {
    if k == 0 then [] else [n % 256] + Le(n / 256, k - 1)
  }

  function FromLe(s: seq<byte>): nat {
    if s == [] then 0 else s[0] + 256 * FromLe(s[1..])
  }

  function Pow256(k: nat): nat { if k == 0 then 1 else 256 * Pow256(k - 1) }

  lemma {:induction false} LeRoundTrip(n: nat, k: nat)
    requires n < Pow256(k)
    ensures FromLe(Le(n, k)) == n
  {
    if k > 0 {
      LeRoundTrip(n / 256, k - 1);
      assert Le(n, k)[1..] == Le(n / 256, k - 1);
    }
  }

  // ---------------------------------------------------------------------------
  // Sizes

  predicate Multiple(n: nat, align: Align) {
    if align == 4 then n % 4 == 0 else n % 8 == 0
  }

  function Pad4(size: nat): (pad: nat)
    ensures pad < 4 && (size + pad) % 4 == 0
  {
    assert size == 4 * (size / 4) + size % 4;
    if size % 4 == 0 then 0 else 4 - size % 4
  }

  function Pad8(size: nat): (pad: nat)
    ensures pad < 8 && (size + pad) % 8 == 0
  {
    assert size == 8 * (size / 8) + size % 8;
    if size % 8 == 0 then 0 else 8 - size % 8
  }

  /** The padding that msg_used_size adds: (-size) & (LOG_ALIGN - 1). */
  function PadLen(size: nat, align: Align): (pad: nat)
    ensures pad < align && Multiple(size + pad, align)
  {
    if align == 4 then Pad4(size) else Pad8(size)
  }

  /** msg_used_size */
  function UsedSize(textLen: nat, dictLen: nat, align: Align): (size: nat)
    ensures HEADER + textLen + dictLen <= size < HEADER + textLen + dictLen + align && Multiple(size, align)
  {
    var size := HEADER + textLen + dictLen;
    size + PadLen(size, align)
  }

  function Size(r: Rec, align: Align): nat {
    UsedSize(|r.text|, |r.dict|, align)
  }

  /** Every field fits its place in the header; in particular the 16-bit length is exact. */
  predicate Storable(r: Rec, align: Align) {
    && r.ts < Pow256(8) && r.facility < 256 && r.flags < 32 && r.level < 8
    && Size(r, align) < 0x10000
  }

  // ---------------------------------------------------------------------------
  // Writing and reading a record

  function Zeros(n: nat): (s: seq<byte>)
    ensures |s| == n
  {
    seq(n, _ => 0)
  }

  function Header(r: Rec, align: Align): (s: seq<byte>)
    requires Storable(r, align)
    ensures |s| == HEADER
  {
    Le(r.ts, 8) + Le(Size(r, align), 2) + Le(|r.text|, 2) + Le(|r.dict|, 2) + [r.facility] + [r.flags + 32 * r.level]
  }

  /** The bytes of a record: header, text, dictionary and zero padding. */
  function Encode(r: Rec, align: Align): (s: seq<byte>)
    requires Storable(r, align)
    ensures |s| == Size(r, align)
  {
    Header(r, align) + r.text + r.dict + Zeros(PadLen(HEADER + |r.text| + |r.dict|, align))
  }

  function FieldAt(b: seq<byte>, i: nat): nat
    requires i + 2 <= |b|
  {
    b[i] as int + 256 * b[i + 1] as int
  }

  function LenAt(b: seq<byte>, i: nat): nat
    requires i + HEADER <= |b|
  {
    FieldAt(b, i + 8)
  }

  function TextLenAt(b: seq<byte>, i: nat): nat
    requires i + HEADER <= |b|
  {
    FieldAt(b, i + 10)
  }

  function DictLenAt(b: seq<byte>, i: nat): nat
    requires i + HEADER <= |b|
  {
    FieldAt(b, i + 12)
  }

  predicate Readable(b: seq<byte>, i: nat) {
    i + HEADER <= |b| && i + HEADER + TextLenAt(b, i) + DictLenAt(b, i) <= |b|
  }

  /** Read the record at position i. */
  function Decode(b: seq<byte>, i: nat): Rec
    requires Readable(b, i)
  {
    var t, d := TextLenAt(b, i), DictLenAt(b, i);
    Rec(FromLe(b[i..i + 8]), b[i + 14], b[i + 15] % 32, b[i + 15] / 32,
        b[i + HEADER..i + HEADER + t], b[i + HEADER + t..i + HEADER + t + d])
  }

  /** The bytes of r stand at position i. */
  ghost predicate StoredAt(b: seq<byte>, i: nat, r: Rec, align: Align) {
    && Storable(r, align) && i + Size(r, align) <= |b|
    && b[i..i + Size(r, align)] == Encode(r, align)
  }

  lemma Le2(n: nat)
    requires n < 0x10000
    ensures Le(n, 2) == [n % 256, n / 256]
  {
    assert Le(n / 256, 1) == [n / 256 % 256] + Le(n / 256 / 256, 0);
  }

  lemma HeaderBytes(r: Rec, align: Align)
    requires Storable(r, align)
    ensures var h := Header(r, align);
            && h[..8] == Le(r.ts, 8)
            && FieldAt(h, 8) == Size(r, align) && FieldAt(h, 10) == |r.text| && FieldAt(h, 12) == |r.dict|
            && h[14] == r.facility && h[15] == r.flags + 32 * r.level
  {
    Le2(Size(r, align));
    Le2(|r.text|);
    Le2(|r.dict|);
  }

  lemma SubSlice<T>(b: seq<T>, i: nat, n: nat, x: nat, y: nat)
    requires i + n <= |b| && x <= y <= n
    ensures b[i..i + n][x..y] == b[i + x..i + y]
  {
    var s, t := b[i..i + n][x..y], b[i + x..i + y];
    forall k | 0 <= k < y - x ensures s[k] == t[k] {
      assert s[k] == b[i..i + n][x + k];
    }
  }

  lemma Pieces(a: seq<byte>, b: seq<byte>, c: seq<byte>, d: seq<byte>)
    ensures (a + b + c + d)[|a|..|a| + |b|] == b && (a + b + c + d)[|a| + |b|..|a| + |b| + |c|] == c
  {
  }

  lemma StoredHeader(b: seq<byte>, i: nat, r: Rec, align: Align)
    requires StoredAt(b, i, r, align)
    ensures b[i..i + HEADER] == Header(r, align)
  {
    var e := Encode(r, align);
    SubSlice(b, i, Size(r, align), 0, HEADER);
    assert e[0..HEADER] == Header(r, align);
  }

  lemma StoredBody(b: seq<byte>, i: nat, r: Rec, align: Align)
    requires StoredAt(b, i, r, align)
    ensures var t, d := i + HEADER + |r.text|, i + HEADER + |r.text| + |r.dict|;
            b[i + HEADER..t] == r.text && b[t..d] == r.dict
  {
    hide UsedSize;
    hide PadLen;
    hide Multiple;
    hide Header;
    var e := Encode(r, align);
    var t, d := HEADER + |r.text|, HEADER + |r.text| + |r.dict|;
    SubSlice(b, i, Size(r, align), HEADER, t);
    SubSlice(b, i, Size(r, align), t, d);
    Pieces(Header(r, align), r.text, r.dict, Zeros(PadLen(HEADER + |r.text| + |r.dict|, align)));
  }

  /** Reading a stored record gives back exactly what was stored. */
  lemma StoredReadsBack(b: seq<byte>, i: nat, r: Rec, align: Align)
    requires StoredAt(b, i, r, align)
    ensures i + HEADER <= |b| && LenAt(b, i) == Size(r, align) >= HEADER
    ensures Readable(b, i) && Decode(b, i) == r
  {
    hide Header;
    hide Encode;
    hide UsedSize;
    hide PadLen;
    hide Multiple;
    hide Le;
    hide FromLe;
    hide Pow256;
    var h := Header(r, align);
    HeaderBytes(r, align);
    StoredHeader(b, i, r, align);
    StoredBody(b, i, r, align);
    assert forall k | 0 <= k < HEADER :: b[i + k] == b[i..i + HEADER][k] == h[k];
    assert b[i..i + 8] == h[..8];
    LeRoundTrip(r.ts, 8);
  }

  /** A stored record survives every change of the bytes outside it. */
  lemma StoredFrame(b: seq<byte>, b': seq<byte>, i: nat, r: Rec, align: Align)
    requires StoredAt(b, i, r, align) && |b'| == |b|
    requires forall k | i <= k < i + Size(r, align) :: b'[k] == b[k]
    ensures StoredAt(b', i, r, align)
  {
    assert b'[i..i + Size(r, align)] == b[i..i + Size(r, align)];
  }
}
