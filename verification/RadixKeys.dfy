/** Index digits, and what lies below a slot of a radix tree. */
module RadixKeys {
  import opened RadixState
  import opened Options
  import opened Words

  /** The index shifted right by l digits of six bits: the key of its slot at level l. */
  function Key(l: nat, i: nat): nat { if l == 0 then i else Key(l - 1, i) / 64 }

  /** shift_maxindex: the largest index below a node at level l, without the wrap-around of the topmost level. */
  function MaxIndex(l: nat): nat { Pow64(l + 1) - 1 }

  /** An index lies in a tree exactly when it has no digits above the root. */
  lemma {:induction false} KeyZero(l: nat, i: nat)
    ensures Key(l, i) == 0 <==> i < Pow64(l)
  {
    if l > 0 { KeyShift(l - 1, i); KeyZero(l - 1, i / 64); }
  }

  lemma {:induction false} KeyShift(l: nat, i: nat)
    ensures Key(l + 1, i) == Key(l, i / 64)
  {
    if l > 0 { KeyShift(l - 1, i); }
  }

  lemma InTree(h: nat, i: nat)
    ensures i > MaxIndex(h) <==> Key(h + 1, i) != 0
  {
    KeyZero(h + 1, i);
  }

  lemma {:induction false} KeyOfZero(l: nat)
    ensures Key(l, 0) == 0
  {
    if l > 0 { KeyOfZero(l - 1); }
  }

  lemma {:induction false} KeyStaysZero(l: nat, m: nat, i: nat)
    requires l <= m && Key(l, i) == 0
    ensures Key(m, i) == 0
    decreases m
  {
    if l < m { KeyStaysZero(l, m - 1, i); }
  }

  // ---------------------------------------------------------------------------
  // Sets of indices, seen from the slots above them

  type Pred = nat -> bool

  /** Some index below the slot with key k at level l is in the set. */
  ghost predicate Below(p: Pred, l: nat, k: nat) { exists i: nat :: p(i) && Key(l, i) == k }

  ghost predicate BelowDigit(p: Pred, l: nat, k: nat, o: nat) { l > 0 && Below(p, l - 1, 64 * k + o) }

  lemma BelowLeaf(p: Pred, k: nat)
    ensures Below(p, 0, k) == p(k)
  {
    assert Key(0, k) == k;
  }

  lemma BelowDigitIs(p: Pred, l: nat, k: nat, o: nat)
    ensures BelowDigit(p, l + 1, k, o) == Below(p, l, 64 * k + o)
  {
  }

  /** A slot shows a member exactly when one of the 64 slots below it does. */
  lemma BelowIs(p: Pred, m: nat, k: nat)
    requires m > 0
    ensures Below(p, m, k) <==> exists o: nat :: o < 64 && BelowDigit(p, m, k, o)
  {
    if Below(p, m, k) {
      var i: nat :| p(i) && Key(m, i) == k;
      assert Key(m - 1, i) == 64 * k + Key(m - 1, i) % 64;
      assert BelowDigit(p, m, k, Key(m - 1, i) % 64);
    }
    if o: nat :| o < 64 && BelowDigit(p, m, k, o) {
      var i: nat :| p(i) && Key(m - 1, i) == 64 * k + o;
      assert Key(m, i) == k;
    }
  }

  lemma BelowSome(p: Pred, m: nat, k: nat) returns (o: nat)
    requires m > 0 && Below(p, m, k)
    ensures o < 64 && BelowDigit(p, m, k, o)
  {
    BelowIs(p, m, k);
    o :| o < 64 && BelowDigit(p, m, k, o);
  }

  lemma BelowStep(p: Pred, l: nat, k: nat)
    requires Below(p, l, k)
    ensures Below(p, l + 1, k / 64)
  {
    var i: nat :| p(i) && Key(l, i) == k;
    assert Key(l + 1, i) == k / 64;
  }

  lemma BelowHit(p: Pred, l: nat, i: nat)
    requires p(i)
    ensures Below(p, l, Key(l, i))
  {
  }

  /** A member that is below the slot. */
  lemma BelowWitness(p: Pred, l: nat, k: nat) returns (i: nat)
    requires Below(p, l, k)
    ensures p(i) && Key(l, i) == k
  {
    i :| p(i) && Key(l, i) == k;
  }

  /** The slot does not show a change elsewhere. */
  lemma BelowFrame(p: Pred, p': Pred, l: nat, k: nat, i: nat)
    requires (forall j: nat | j != i :: p'(j) == p(j)) && k != Key(l, i)
    ensures Below(p', l, k) == Below(p, l, k)
  {
    if Below(p, l, k) {
      var j := BelowWitness(p, l, k);
      BelowHit(p', l, j);
    }
    if Below(p', l, k) {
      var j := BelowWitness(p', l, k);
      BelowHit(p, l, j);
    }
  }

  lemma BelowSame(p: Pred, p': Pred, l: nat, k: nat)
    requires forall j: nat :: p'(j) == p(j)
    ensures Below(p', l, k) == Below(p, l, k)
  {
    if Below(p, l, k) { var j := BelowWitness(p, l, k); BelowHit(p', l, j); }
    if Below(p', l, k) { var j := BelowWitness(p', l, k); BelowHit(p, l, j); }
  }

  lemma BelowSubset(p: Pred, p': Pred, l: nat, k: nat)
    requires Below(p, l, k) && forall j: nat | p(j) :: p'(j)
    ensures Below(p', l, k)
  {
    var j := BelowWitness(p, l, k);
    BelowHit(p', l, j);
  }

  /** Adding a member shows exactly in the slots above it. */
  lemma BelowAdd(p: Pred, p': Pred, l: nat, k: nat, i: nat)
    requires (forall j: nat | j != i :: p'(j) == p(j)) && p'(i)
    ensures Below(p', l, k) <==> Below(p, l, k) || k == Key(l, i)
  {
    if k != Key(l, i) { BelowFrame(p, p', l, k, i); } else { BelowHit(p', l, i); }
  }

  // ---------------------------------------------------------------------------
  // Shapes and tags of index sets

  ghost function OccOf(v: Items): Pred { (i: nat) => v(i).Some? }

  /** The slots that lead to a member, and from level e up also those that lead to i. */
  ghost function PathShape(p: Pred, i: nat, e: nat): Shape { (l: nat, k: nat) => Below(p, l, k) || (l >= e && k == Key(l, i)) }

  ghost function ShapeOf(p: Pred): Shape { (l: nat, k: nat) => Below(p, l, k) }

  type TagSets = (nat, nat) -> bool

  ghost function TagPred(g: TagSets, a: nat): Pred { (i: nat) => g(a, i) }

  ghost function TagsOf(g: TagSets): Tags { (a: nat, l: nat, k: nat) => Below(TagPred(g, a), l, k) }
}
