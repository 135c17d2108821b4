/** The elementary moves of the SLUB allocator, each of which keeps the invariant of the cache. */
module SlubMoves {
  import opened Lists
  import opened SlubState
  import opened Options

  function Tail(s: seq<nat>): seq<nat> { if s == [] then [] else s[1..] }

  /** Slab p is the current slab of CPU x. */
  ghost predicate Current(c: Cache, x: Cpu, p: nat) { c.cpu(x).page == Some(p) }

  lemma CurrentFacts(c: Cache, x: Cpu, p: nat)
    requires Inv(c) && Current(c, x, p)
    ensures p in c.slabs && SlabOk(c, p) && c.view(p).owner == Some(x) && c.page(p).frozen
    ensures c.cpu(x).freelist == At(p, c.view(p).cpu, 0)
    ensures forall y: Cpu :: c.cpu(y).page == Some(p) ==> y == x
  {
    assert CpuOk(c, x);
    forall y: Cpu | c.cpu(y).page == Some(p) ensures y == x { assert CpuOk(c, y); }
  }

  /** Everything but slab p, and CPUs that do not use it, is untouched. */
  ghost predicate OnlySlab(c: Cache, c': Cache, p: nat) {
    && c'.objects == c.objects
    && (forall q | q != p :: c'.view(q) == c.view(q) && c'.page(q) == c.page(q))
    && (forall o: Obj | o.page != p :: c'.handed(o) == c.handed(o) && c'.fp(o) == c.fp(o))
  }

  /** The other slabs stay well formed. */
  lemma OtherSlabs(c: Cache, c': Cache, x: Cpu, p: nat)
    requires Inv(c) && OnlySlab(c, c', p)
    requires forall y: Cpu | y != x :: c'.cpu(y) == c.cpu(y)
    requires c.cpu(x).page == None || c.cpu(x).page == Some(p)
    ensures forall q | q in c.slabs && q != p :: SlabOk(c', q)
  {
    forall q | q in c.slabs && q != p ensures SlabOk(c', q) { SlabFrame(c, c', q); }
  }

  // ---------------------------------------------------------------------------
  // Allocation

  /** The fast path of slab_alloc: take the first object of the CPU's free list. */
  function Pop(c: Cache, x: Cpu, p: nat, o: Obj): Cache {
    var v := c.view(p);
    c.(cpu := Put(c.cpu, x, CpuSlab(Some(p), c.fp(o))), view := Put(c.view, p, v.(cpu := Tail(v.cpu))),
       handed := Set(c.handed, o, true))
  }

  lemma PopSlab(c: Cache, x: Cpu, p: nat, o: Obj)
    requires SlabOk(c, p) && c.view(p).cpu != [] && o == Obj(p, c.view(p).cpu[0]) && c.view(p).owner == Some(x)
    ensures SlabOk(Pop(c, x, p, o), p) && !c.handed(o) && o.i < c.objects
    ensures c.fp(o) == At(p, Tail(c.view(p).cpu), 0)
  {
    var v := c.view(p);
    NoDupPop(v.cpu);
    ChainPop(c.fp, p, v.cpu);
    assert v.cpu[0] in v.cpu;
  }

  lemma PopKeeps(c: Cache, x: Cpu, p: nat, o: Obj)
    requires Inv(c) && Current(c, x, p) && c.cpu(x).freelist == Some(o)
    ensures Inv(Pop(c, x, p, o)) && !c.handed(o) && o.page == p
  {
    hide SlabOk;
    var c' := Pop(c, x, p, o);
    CurrentFacts(c, x, p);
    PopSlab(c, x, p, o);
    OtherSlabs(c, c', x, p);
    forall y ensures CpuOk(c', y) { assert CpuOk(c, y); }
  }

  /** The end of __slab_alloc: take the first object of the slab's list and give the rest to the CPU. */
  function Load(c: Cache, x: Cpu, p: nat, o: Obj): Cache {
    var v := c.view(p);
    c.(cpu := Put(c.cpu, x, CpuSlab(Some(p), c.fp(o))),
       page := Put(c.page, p, c.page(p).(inuse := c.objects, freelist := None)),
       view := Put(c.view, p, v.(free := [], cpu := Tail(v.free))),
       handed := Set(c.handed, o, true))
  }

  lemma LoadSlab(c: Cache, x: Cpu, p: nat, o: Obj)
    requires SlabOk(c, p) && c.view(p).free != [] && c.view(p).cpu == [] && o == Obj(p, c.view(p).free[0])
    requires c.view(p).owner == Some(x)
    ensures SlabOk(Load(c, x, p, o), p) && !c.handed(o) && o.i < c.objects
    ensures c.fp(o) == At(p, Tail(c.view(p).free), 0)
  {
    var v := c.view(p);
    NoDupPop(v.free);
    ChainPop(c.fp, p, v.free);
    assert v.free[0] in v.free;
  }

  lemma LoadKeeps(c: Cache, x: Cpu, p: nat, o: Obj)
    requires Inv(c) && Current(c, x, p) && c.cpu(x).freelist == None && c.page(p).freelist == Some(o)
    ensures Inv(Load(c, x, p, o)) && !c.handed(o) && o.page == p
  {
    var c' := Load(c, x, p, o);
    CurrentFacts(c, x, p);
    LoadSlab(c, x, p, o);
    LoadRest(c, x, p, o);
  }

  lemma LoadRest(c: Cache, x: Cpu, p: nat, o: Obj)
    requires Inv(c) && Current(c, x, p) && c.view(p).owner == Some(x) && p in c.slabs && SlabOk(Load(c, x, p, o), p)
    requires o.page == p && o.i < c.objects && c.fp(o) == At(p, Tail(c.view(p).free), 0)
    ensures Inv(Load(c, x, p, o))
  {
    hide SlabOk;
    var c' := Load(c, x, p, o);
    OtherSlabs(c, c', x, p);
    forall y ensures CpuOk(c', y) { assert CpuOk(c, y); }
  }

  // ---------------------------------------------------------------------------
  // Leaving a slab

  /** One turn of the loop of deactivate_slab: an object goes back from the CPU's list to the slab's. */
  function Merge(c: Cache, x: Cpu, p: nat, o: Obj): Cache {
    var v, g := c.view(p), c.page(p);
    c.(cpu := Put(c.cpu, x, CpuSlab(Some(p), c.fp(o))), fp := Set(c.fp, o, g.freelist),
       page := Put(c.page, p, g.(freelist := Some(o), inuse := if g.inuse > 0 then g.inuse - 1 else 0)),
       view := Put(c.view, p, v.(free := [o.i] + v.free, cpu := Tail(v.cpu))))
  }

  lemma MergeSlab(c: Cache, x: Cpu, p: nat, o: Obj)
    requires SlabOk(c, p) && c.view(p).cpu != [] && o == Obj(p, c.view(p).cpu[0]) && c.view(p).owner == Some(x)
    ensures SlabOk(Merge(c, x, p, o), p) && c.page(p).inuse > 0
    ensures c.fp(o) == At(p, Tail(c.view(p).cpu), 0)
  {
    var v := c.view(p);
    NoDupPop(v.cpu);
    ChainPop(c.fp, p, v.cpu);
    assert v.cpu[0] in v.cpu;
    NoDupPush(v.free, o.i);
    ChainPush(c.fp, p, v.free, o.i);
    ChainSkip(c.fp, p, v.cpu[1..], o.i, c.page(p).freelist);
    if |v.free| == c.objects { AllListed(v.free, c.objects); }
    FewFree(v.free, c.objects);
  }

  lemma FewFree(s: seq<nat>, n: nat)
    requires NoDup(s) && forall i :: i in s ==> i < n
    ensures |s| <= n
  {
    ElemsCount(s);
    assert Elems(s) <= Below(n);
    Smaller(Elems(s), Below(n));
  }

  lemma MergeKeeps(c: Cache, x: Cpu, p: nat, o: Obj)
    requires Inv(c) && Current(c, x, p) && c.cpu(x).freelist == Some(o)
    ensures Inv(Merge(c, x, p, o)) && c.page(p).inuse > 0
  {
    hide SlabOk;
    var c' := Merge(c, x, p, o);
    CurrentFacts(c, x, p);
    MergeSlab(c, x, p, o);
    OtherSlabs(c, c', x, p);
    forall y ensures CpuOk(c', y) { assert CpuOk(c, y); }
  }

  // ---------------------------------------------------------------------------
  // The partial list

  /** add_partial */
  function AddPartial(c: Cache, p: nat): Cache { c.(partial := [p] + c.partial, nrPartial := c.nrPartial + 1) }

  /** add_partial_tail */
  function AddPartialTail(c: Cache, p: nat): Cache { c.(partial := c.partial + [p], nrPartial := c.nrPartial + 1) }

  /** remove_partial */
  function RemovePartial(c: Cache, p: nat): Cache {
    c.(partial := Del(c.partial, p), nrPartial := if c.nrPartial > 0 then c.nrPartial - 1 else 0)
  }

  /** discard_slab */
  function Discard(c: Cache, p: nat): Cache {
    c.(slabs := c.slabs - {p}, nrSlabs := if c.nrSlabs > 0 then c.nrSlabs - 1 else 0)
  }

  /** The CPU lets go of its slab and unfreeze_slab clears the frozen flag. */
  function LetGo(c: Cache, x: Cpu, p: nat): Cache {
    c.(cpu := Put(c.cpu, x, CpuSlab(None, None)), page := Put(c.page, p, c.page(p).(frozen := false)),
       view := Put(c.view, p, c.view(p).(owner := None)))
  }

  /** deactivate_slab from `c->page = NULL` on, with unfreeze_slab. */
  function Unfreeze(c: Cache, x: Cpu, p: nat): Cache {
    var c1, g := LetGo(c, x, p), c.page(p);
    if g.inuse > 0 then if g.freelist.Some? then AddPartial(c1, p) else c1
    else if c.nrPartial < MIN_PARTIAL then AddPartialTail(c1, p)
    else Discard(c1, p)
  }

  /** Everything the invariant says except about the partial list and slab p's place on it. */
  ghost predicate BarePartial(c: Cache, p: nat) {
    && c.objects > 0 && p in c.slabs
    && (forall q | q in c.slabs :: SlabOk(c, q))
    && (forall x :: CpuOk(c, x))
    && c.nrSlabs == |c.slabs|
    && (forall o: Obj :: c.handed(o) ==> o.page in c.slabs && o.i < c.objects)
    && c.view(p).owner.None?
    && NoDup(c.partial) && c.nrPartial == |c.partial|
    && (forall q | q != p :: q in c.partial <==> q in c.slabs && c.view(q).owner.None? && c.view(q).free != [])
  }

  lemma AddPartialKeeps(c: Cache, p: nat)
    requires BarePartial(c, p) && p !in c.partial && c.view(p).free != []
    ensures Inv(AddPartial(c, p)) && Inv(AddPartialTail(c, p))
  {
    PartialFrame(c, AddPartial(c, p));
    PartialFrame(c, AddPartialTail(c, p));
    NoDupConcat(c.partial, [p]);
  }

  lemma PartialFrame(c: Cache, c': Cache)
    requires c' == c.(partial := c'.partial, nrPartial := c'.nrPartial)
    ensures forall q | q in c.slabs && SlabOk(c, q) :: SlabOk(c', q)
    ensures forall x | CpuOk(c, x) :: CpuOk(c', x)
  {
  }

  /** A slab all of whose objects are on its list can be given back: no caller has any of them. */
  lemma DiscardKeeps(c: Cache, p: nat)
    requires BarePartial(c, p) && p !in c.partial && c.page(p).inuse == 0
    ensures Inv(Discard(c, p))
    ensures forall o: Obj :: o.page == p ==> !c.handed(o)
  {
    var c' := Discard(c, p);
    assert SlabOk(c, p);
    AllListed(c.view(p).free, c.objects);
    forall o: Obj ensures o.page == p ==> !c.handed(o) {
      assert o.page == p && o.i < c.objects ==> o == Obj(p, o.i) && o.i in c.view(p).free;
    }
    forall q | q in c'.slabs ensures SlabOk(c', q) { SlabFrame(c, c', q); }
    forall x ensures CpuOk(c', x) { assert CpuOk(c, x); }
  }

  lemma LetGoKeeps(c: Cache, x: Cpu, p: nat)
    requires Inv(c) && Current(c, x, p) && c.cpu(x).freelist == None
    ensures BarePartial(LetGo(c, x, p), p) && p !in c.partial
  {
    hide SlabOk;
    var c' := LetGo(c, x, p);
    CurrentFacts(c, x, p);
    LetGoSlab(c, x, p);
    OtherSlabs(c, c', x, p);
    forall y ensures CpuOk(c', y) { assert CpuOk(c, y); if y != x { NotTaken(c, y, x, p); } }
  }

  lemma NotTaken(c: Cache, y: Cpu, x: Cpu, p: nat)
    requires Inv(c) && Current(c, x, p) && y != x
    ensures c.cpu(y).page != Some(p)
  {
    hide SlabOk;
    assert CpuOk(c, x) && CpuOk(c, y);
  }

  lemma LetGoSlab(c: Cache, x: Cpu, p: nat)
    requires SlabOk(c, p) && c.view(p).cpu == []
    ensures SlabOk(LetGo(c, x, p), p)
  {
  }

  lemma UnfreezeKeeps(c: Cache, x: Cpu, p: nat)
    requires Inv(c) && Current(c, x, p) && c.cpu(x).freelist == None
    ensures Inv(Unfreeze(c, x, p))
  {
    var c1 := LetGo(c, x, p);
    CurrentFacts(c, x, p);
    LetGoKeeps(c, x, p);
    assert SlabOk(c, p);
    if c.page(p).inuse == 0 && c.nrPartial >= MIN_PARTIAL {
      DiscardKeeps(c1, p);
    } else if c.page(p).inuse == 0 || c.page(p).freelist.Some? {
      AddPartialKeeps(c1, p);
    }
  }

  // ---------------------------------------------------------------------------
  // Getting a slab

  /** get_partial_node: the first slab of the partial list becomes the CPU's current slab. */
  function TakePartial(c: Cache, x: Cpu): Cache {
    if c.partial == [] then c
    else
      var p := c.partial[0];
      c.(partial := c.partial[1..], nrPartial := if c.nrPartial > 0 then c.nrPartial - 1 else 0,
         page := Put(c.page, p, c.page(p).(frozen := true)), view := Put(c.view, p, c.view(p).(owner := Some(x))),
         cpu := Put(c.cpu, x, CpuSlab(Some(p), None)))
  }

  lemma TakeSlab(c: Cache, x: Cpu)
    requires c.partial != [] && SlabOk(c, c.partial[0]) && c.view(c.partial[0]).owner.None?
    ensures SlabOk(TakePartial(c, x), c.partial[0])
  {
  }

  lemma TakePartialKeeps(c: Cache, x: Cpu)
    requires Inv(c) && c.cpu(x).page == None && c.partial != []
    ensures var c', p := TakePartial(c, x), c.partial[0];
            Inv(c') && Current(c', x, p) && c'.cpu(x).freelist == None && c'.page(p).freelist.Some?
  {
    var c', p := TakePartial(c, x), c.partial[0];
    assert p in c.partial && SlabOk(c, p);
    NoDupPop(c.partial);
    TakeSlab(c, x);
    TakeRest(c, x);
  }

  lemma TakeRest(c: Cache, x: Cpu)
    requires Inv(c) && c.cpu(x).page == None && c.partial != [] && SlabOk(TakePartial(c, x), c.partial[0])
    requires c.partial[0] in c.slabs && c.view(c.partial[0]).owner.None? && c.view(c.partial[0]).cpu == []
    requires NoDup(c.partial[1..]) && forall i :: i in c.partial <==> i == c.partial[0] || i in c.partial[1..]
    requires c.partial[0] !in c.partial[1..]
    ensures Inv(TakePartial(c, x))
  {
    hide SlabOk;
    var c', p := TakePartial(c, x), c.partial[0];
    OtherSlabs(c, c', x, p);
    forall y ensures CpuOk(c', y) { assert CpuOk(c, y); }
  }

  /** The indices 0 .. n - 1. */
  function Upto(n: nat): (s: seq<nat>)
    ensures |s| == n && forall i :: 0 <= i < n ==> s[i] == i
  {
    seq(n, i requires 0 <= i => i)
  }

  /** A fresh slab p, its objects chained by fp, becomes the CPU's current slab. */
  function AddSlab(c: Cache, x: Cpu, p: nat, fp: Obj -> Option<Obj>, page: nat -> Page): Cache {
    c.(fp := fp, slabs := c.slabs + {p}, nrSlabs := c.nrSlabs + 1,
       page := page, view := Put(c.view, p, View(Upto(c.objects), [], Some(x))),
       cpu := Put(c.cpu, x, CpuSlab(Some(p), None)))
  }

  lemma AddSlabKeeps(c: Cache, x: Cpu, p: nat, fp: Obj -> Option<Obj>, page: nat -> Page)
    requires Inv(c) && c.cpu(x).page == None && p !in c.slabs
    requires forall q | q != p :: page(q) == c.page(q)
    requires page(p) == Page(Some(Obj(p, 0)), 0, true)
    requires forall o: Obj | o.page != p :: fp(o) == c.fp(o)
    requires Chained(fp, p, Upto(c.objects))
    ensures var c' := AddSlab(c, x, p, fp, page); Inv(c') && Current(c', x, p) && c'.page(p).freelist.Some?
  {
    hide SlabOk;
    hide CpuOk;
    hide PartialOk;
    hide Upto;
    hide Chained;
    AddSlabSlabs(c, x, p, fp, page);
    AddSlabCpus(c, x, p, fp, page);
    AddSlabPartial(c, x, p, fp, page);
  }

  lemma AddSlabSlabs(c: Cache, x: Cpu, p: nat, fp: Obj -> Option<Obj>, page: nat -> Page)
    requires Inv(c) && c.cpu(x).page == None && p !in c.slabs
    requires forall q | q != p :: page(q) == c.page(q)
    requires page(p) == Page(Some(Obj(p, 0)), 0, true)
    requires forall o: Obj | o.page != p :: fp(o) == c.fp(o)
    requires Chained(fp, p, Upto(c.objects))
    ensures forall q | q in c.slabs + {p} :: SlabOk(AddSlab(c, x, p, fp, page), q)
  {
    hide SlabOk;
    hide CpuOk;
    hide PartialOk;
    hide Upto;
    hide Chained;
    FreshSlab(c, x, p, fp, page);
    OtherSlabs(c, AddSlab(c, x, p, fp, page), x, p);
  }

  lemma AddSlabCpus(c: Cache, x: Cpu, p: nat, fp: Obj -> Option<Obj>, page: nat -> Page)
    requires (forall y :: CpuOk(c, y)) && p !in c.slabs
    ensures forall y :: CpuOk(AddSlab(c, x, p, fp, page), y)
  {
    hide Upto;
    var c' := AddSlab(c, x, p, fp, page);
    forall y ensures CpuOk(c', y) { assert CpuOk(c, y); }
  }

  lemma AddSlabPartial(c: Cache, x: Cpu, p: nat, fp: Obj -> Option<Obj>, page: nat -> Page)
    requires PartialOk(c) && p !in c.slabs
    ensures PartialOk(AddSlab(c, x, p, fp, page))
  {
    hide Upto;
  }

  lemma UptoFacts(n: nat)
    ensures NoDup(Upto(n)) && (forall i :: i in Upto(n) <==> 0 <= i < n)
    ensures n > 0 ==> Upto(n)[0] == 0
  {
    forall i ensures i in Upto(n) <==> 0 <= i < n {
      if 0 <= i < n { assert Upto(n)[i] == i; }
    }
  }

  lemma FreshSlab(c: Cache, x: Cpu, p: nat, fp: Obj -> Option<Obj>, page: nat -> Page)
    requires page(p) == Page(Some(Obj(p, 0)), 0, true)
    requires c.objects > 0 && Chained(fp, p, Upto(c.objects))
    requires forall o: Obj :: o.page == p ==> !c.handed(o)
    ensures SlabOk(AddSlab(c, x, p, fp, page), p)
  {
    hide Upto;
    hide Chained;
    UptoFacts(c.objects);
    EmptyChain(fp, p);
  }

  lemma EmptyChain(fp: Obj -> Option<Obj>, p: nat)
    ensures Chained(fp, p, [])
  {
    forall k ensures LinkOk(fp, p, [], k) { }
  }

  // ---------------------------------------------------------------------------
  // Freeing

  /** The fast path of slab_free: the object goes on the list of the CPU whose slab it is in. */
  function FreeFast(c: Cache, x: Cpu, o: Obj): Cache {
    var v := c.view(o.page);
    c.(fp := Set(c.fp, o, c.cpu(x).freelist), cpu := Put(c.cpu, x, c.cpu(x).(freelist := Some(o))),
       view := Put(c.view, o.page, v.(cpu := [o.i] + v.cpu)), handed := Set(c.handed, o, false))
  }

  lemma FreeFastKeeps(c: Cache, x: Cpu, o: Obj)
    requires Inv(c) && Current(c, x, o.page) && c.handed(o)
    ensures Inv(FreeFast(c, x, o))
  {
    hide SlabOk;
    var c' := FreeFast(c, x, o);
    CurrentFacts(c, x, o.page);
    FreeFastSlab(c, x, o);
    OtherSlabs(c, c', x, o.page);
    forall y ensures CpuOk(c', y) { assert CpuOk(c, y); }
  }

  lemma FreeFastSlab(c: Cache, x: Cpu, o: Obj)
    requires SlabOk(c, o.page) && c.view(o.page).owner == Some(x) && c.handed(o) && o.i < c.objects
    requires c.cpu(x) == CpuSlab(Some(o.page), At(o.page, c.view(o.page).cpu, 0))
    ensures SlabOk(FreeFast(c, x, o), o.page)
  {
    var v, p := c.view(o.page), o.page;
    assert o == Obj(p, o.i);
    NoDupPush(v.cpu, o.i);
    ChainPush(c.fp, p, v.cpu, o.i);
    ChainSkip(c.fp, p, v.free, o.i, c.cpu(x).freelist);
  }

  /** __slab_free up to the test of the frozen flag. */
  function GiveBack(c: Cache, o: Obj): Cache {
    var p := o.page;
    var v, g := c.view(p), c.page(p);
    c.(fp := Set(c.fp, o, g.freelist),
       page := Put(c.page, p, g.(freelist := Some(o), inuse := if g.inuse > 0 then g.inuse - 1 else 0)),
       view := Put(c.view, p, v.(free := [o.i] + v.free)), handed := Set(c.handed, o, false))
  }

  /** __slab_free */
  function FreeSlow(c: Cache, o: Obj): Cache {
    var p, prior := o.page, c.page(o.page).freelist;
    var c1 := GiveBack(c, o);
    if c.page(p).frozen then c1
    else if c1.page(p).inuse == 0 then Discard(if prior.Some? then RemovePartial(c1, p) else c1, p)
    else if prior.None? then AddPartialTail(c1, p)
    else c1
  }

  lemma GiveBackSlab(c: Cache, o: Obj)
    requires SlabOk(c, o.page) && c.handed(o) && o.i < c.objects
    ensures SlabOk(GiveBack(c, o), o.page) && c.page(o.page).inuse > 0
  {
    var v, p := c.view(o.page), o.page;
    assert o == Obj(p, o.i);
    NoDupPush(v.free, o.i);
    ChainPush(c.fp, p, v.free, o.i);
    ChainSkip(c.fp, p, v.cpu, o.i, c.page(p).freelist);
    FewFree([o.i] + v.free, c.objects);
  }

  lemma GiveBackKeeps(c: Cache, o: Obj)
    requires Inv(c) && c.handed(o)
    ensures var c1, p := GiveBack(c, o), o.page;
            && p in c.slabs && c.page(p).inuse > 0
            && (c.page(p).frozen ==> Inv(c1))
            && (!c.page(p).frozen ==> BarePartial(c1, p) && (c.page(p).freelist.Some? <==> p in c.partial))
  {
    hide Partitioned;
    hide Chained;
    var c1, p := GiveBack(c, o), o.page;
    assert SlabOk(c, p);
    GiveBackSlab(c, o);
    forall q | q in c.slabs && q != p ensures SlabOk(c1, q) { SlabFrame(c, c1, q); }
    forall x ensures CpuOk(c1, x) { assert CpuOk(c, x); }
  }

  lemma FreeSlowKeeps(c: Cache, o: Obj)
    requires Inv(c) && c.handed(o)
    ensures Inv(FreeSlow(c, o))
  {
    hide SlabOk;
    hide CpuOk;
    var c1, p := GiveBack(c, o), o.page;
    GiveBackKeeps(c, o);
    if !c.page(p).frozen {
      if c1.page(p).inuse == 0 {
        if c.page(p).freelist.Some? {
          RemoveKeeps(c1, p);
          DiscardKeeps(RemovePartial(c1, p), p);
        } else {
          DiscardKeeps(c1, p);
        }
      } else if c.page(p).freelist.None? {
        AddPartialKeeps(c1, p);
      } else {
        StillPartial(c1, p);
      }
    }
  }

  lemma RemoveKeeps(c: Cache, p: nat)
    requires BarePartial(c, p) && p in c.partial
    ensures BarePartial(RemovePartial(c, p), p) && p !in RemovePartial(c, p).partial
  {
    hide SlabOk;
    hide CpuOk;
    DelFacts(c.partial, p);
    PartialFrame(c, RemovePartial(c, p));
  }

  lemma StillPartial(c: Cache, p: nat)
    requires BarePartial(c, p) && p in c.partial && c.view(p).free != []
    ensures Inv(c)
  {
    hide SlabOk;
    hide CpuOk;
  }
}
