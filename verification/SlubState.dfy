/**
 The state of one SLUB cache (kernel/mm/slab.c) and what each elementary move does to it.

 A slab is a page with a fixed number of objects.  Free objects are chained through their own memory:
 `fp(o)` is the free pointer stored in object o, which is meaningful only while o is free.  A slab that
 is some CPU's current slab has a second free list, headed by that CPU.
 */
module SlubState {
  import opened Lists
  import opened Options

  type Cpu = nat

  datatype Obj = Obj(page: nat, i: nat)

  /** The fields of struct page that SLUB uses. */
  datatype Page = Page(freelist: Option<Obj>, inuse: nat, frozen: bool)

  /** struct kmem_cache_cpu */
  datatype CpuSlab = CpuSlab(page: Option<nat>, freelist: Option<Obj>)

  /** What the pointers mean: the free list of a slab, the CPU's free list of it, and that CPU. */
  datatype View = View(free: seq<nat>, cpu: seq<nat>, owner: Option<Cpu>)

  datatype Cache = Cache(
    objects: nat,
    fp: Obj -> Option<Obj>,
    page: nat -> Page,
    cpu: Cpu -> CpuSlab,
    partial: seq<nat>,
    nrPartial: nat,
    nrSlabs: nat,
    slabs: set<nat>,          // the live slabs
    view: nat -> View,
    handed: Obj -> bool)      // the objects that callers have

  const MIN_PARTIAL: nat := 5

  function Put<V>(f: nat -> V, k: nat, v: V): nat -> V { (x: nat) => if x == k then v else f(x) }

  function Set<V>(f: Obj -> V, o: Obj, v: V): Obj -> V { (x: Obj) => if x == o then v else f(x) }

  function At(p: nat, s: seq<nat>, k: int): Option<Obj> { if 0 <= k < |s| then Some(Obj(p, s[k])) else None }

  // ---------------------------------------------------------------------------
  // The invariant

  ghost predicate LinkOk(fp: Obj -> Option<Obj>, p: nat, s: seq<nat>, k: int) {
    0 <= k < |s| ==> fp(Obj(p, s[k])) == At(p, s, k + 1)
  }

  /** The objects s of slab p are chained in this order. */
  ghost predicate Chained(fp: Obj -> Option<Obj>, p: nat, s: seq<nat>) {
    forall k :: LinkOk(fp, p, s, k)
  }

  /** Every object is in exactly one place: with a caller, on the slab's list, or on the CPU's list. */
  ghost predicate Partitioned(n: nat, p: nat, v: View, handed: Obj -> bool) {
    && NoDup(v.free) && NoDup(v.cpu)
    && (forall i :: i in v.free ==> i !in v.cpu)
    && (forall i :: i in v.free || i in v.cpu ==> i < n)
    && (forall i: nat :: i < n ==> (handed(Obj(p, i)) <==> i !in v.free && i !in v.cpu))
  }

  ghost predicate SlabOk(c: Cache, p: nat) {
    var v, g := c.view(p), c.page(p);
    && Partitioned(c.objects, p, v, c.handed)
    && g.inuse + |v.free| == c.objects
    && g.frozen == v.owner.Some?
    && (v.owner.None? ==> v.cpu == [])
    && g.freelist == At(p, v.free, 0)
    && Chained(c.fp, p, v.free) && Chained(c.fp, p, v.cpu)
    && (v.owner.Some? ==> c.cpu(v.owner.value).page == Some(p))
  }

  ghost predicate CpuOk(c: Cache, x: Cpu) {
    var k := c.cpu(x);
    if k.page.None? then k.freelist.None?
    else
      var p := k.page.value;
      p in c.slabs && c.view(p).owner == Some(x) && k.freelist == At(p, c.view(p).cpu, 0)
  }

  /** An unfrozen slab is on the partial list exactly when its free list is not empty. */
  ghost predicate PartialOk(c: Cache) {
    && NoDup(c.partial) && c.nrPartial == |c.partial|
    && (forall p :: p in c.partial <==> p in c.slabs && c.view(p).owner.None? && c.view(p).free != [])
  }

  ghost predicate Inv(c: Cache) {
    && c.objects > 0
    && (forall p | p in c.slabs :: SlabOk(c, p))
    && (forall x :: CpuOk(c, x))
    && PartialOk(c)
    && c.nrSlabs == |c.slabs|
    && (forall o: Obj :: c.handed(o) ==> o.page in c.slabs && o.i < c.objects)
  }

  /** Slab p looks the same in both states. */
  ghost predicate SameSlab(c: Cache, c': Cache, p: nat) {
    && c'.view(p) == c.view(p) && c'.page(p) == c.page(p) && c'.objects == c.objects
    && (forall o: Obj | o.page == p :: c'.handed(o) == c.handed(o))
    && (forall o: Obj | o.page == p && !c.handed(o) :: c'.fp(o) == c.fp(o))
    && (forall x: Cpu :: c.cpu(x).page == Some(p) ==> c'.cpu(x) == c.cpu(x))
  }

  lemma ChainedFrame(fp: Obj -> Option<Obj>, fp': Obj -> Option<Obj>, p: nat, s: seq<nat>)
    requires Chained(fp, p, s) && forall k | 0 <= k < |s| :: fp'(Obj(p, s[k])) == fp(Obj(p, s[k]))
    ensures Chained(fp', p, s)
  {
    forall k ensures LinkOk(fp', p, s, k) { assert LinkOk(fp, p, s, k); }
  }

  /** A slab that looks the same is still well formed, whatever its callers wrote into their objects. */
  lemma SlabFrame(c: Cache, c': Cache, p: nat)
    requires SlabOk(c, p) && SameSlab(c, c', p)
    ensures SlabOk(c', p)
  {
    var v := c.view(p);
    forall k | 0 <= k < |v.free| ensures c'.fp(Obj(p, v.free[k])) == c.fp(Obj(p, v.free[k])) {
      assert v.free[k] in v.free;
    }
    forall k | 0 <= k < |v.cpu| ensures c'.fp(Obj(p, v.cpu[k])) == c.fp(Obj(p, v.cpu[k])) {
      assert v.cpu[k] in v.cpu;
    }
    ChainedFrame(c.fp, c'.fp, p, v.free);
    ChainedFrame(c.fp, c'.fp, p, v.cpu);
  }

  // ---------------------------------------------------------------------------
  // Lists of objects

  lemma ChainPop(fp: Obj -> Option<Obj>, p: nat, s: seq<nat>)
    requires Chained(fp, p, s) && s != []
    ensures fp(Obj(p, s[0])) == At(p, s[1..], 0) && Chained(fp, p, s[1..])
  {
    assert LinkOk(fp, p, s, 0);
    forall k ensures LinkOk(fp, p, s[1..], k) { assert LinkOk(fp, p, s, k + 1); }
  }

  lemma ChainPush(fp: Obj -> Option<Obj>, p: nat, s: seq<nat>, i: nat)
    requires Chained(fp, p, s) && i !in s
    ensures Chained(Set(fp, Obj(p, i), At(p, s, 0)), p, [i] + s)
  {
    var fp', s' := Set(fp, Obj(p, i), At(p, s, 0)), [i] + s;
    forall k ensures LinkOk(fp', p, s', k) {
      assert LinkOk(fp, p, s, k - 1);
      assert 1 <= k < |s'| ==> s'[k] == s[k - 1] && s'[k] in s;
    }
  }

  lemma ChainSkip(fp: Obj -> Option<Obj>, p: nat, s: seq<nat>, i: nat, v: Option<Obj>)
    requires Chained(fp, p, s) && i !in s
    ensures Chained(Set(fp, Obj(p, i), v), p, s)
  {
    ChainedFrame(fp, Set(fp, Obj(p, i), v), p, s);
  }

  lemma NoDupPop(s: seq<nat>)
    requires NoDup(s) && s != []
    ensures NoDup(s[1..]) && s[0] !in s[1..] && forall i :: i in s <==> i == s[0] || i in s[1..]
  {
    assert s == [s[0]] + s[1..];
  }

  lemma NoDupPush(s: seq<nat>, i: nat)
    requires NoDup(s) && i !in s
    ensures NoDup([i] + s) && forall j :: j in [i] + s <==> j == i || j in s
  {
  }

  ghost function Below(n: nat): (r: set<nat>)
    ensures forall i :: i in r <==> 0 <= i < n
    ensures |r| == n
  {
    if n == 0 then {} else Below(n - 1) + {n - 1}
  }

  /** n distinct indices below n are all of them. */
  lemma AllListed(s: seq<nat>, n: nat)
    requires NoDup(s) && |s| == n && forall i :: i in s ==> i < n
    ensures forall i :: 0 <= i < n ==> i in s
  {
    ElemsCount(s);
    assert Elems(s) <= Below(n);
    if exists i :: 0 <= i < n && i !in s {
      var i :| 0 <= i < n && i !in s;
      assert Elems(s) <= Below(n) - {i};
      Smaller(Elems(s), Below(n) - {i});
    }
  }

  lemma Smaller(a: set<nat>, b: set<nat>)
    requires a <= b
    ensures |a| <= |b|
  {
    assert b == a + (b - a);
  }
}
