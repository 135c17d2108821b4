/** The SLUB object allocator of kernel/mm/slab.c; every operation runs with interrupts off, as one step. */
module Slub {
  import opened Lists
  import opened SlubState
  import opened SlubMoves
  import opened Options

  /** What callers hold after one more, or one fewer, object is out. */
  ghost predicate Gained(h: Obj -> bool, h': Obj -> bool, o: Obj) {
    !h(o) && forall y: Obj :: h'(y) <==> h(y) || y == o
  }

  ghost predicate SameHanded(h: Obj -> bool, h': Obj -> bool) { forall y: Obj :: h'(y) <==> h(y) }

  /** The first object of a list is handed out, and the rest is the CPU's list of its slab. */
  ghost predicate Served(list: seq<nat>, free: seq<nat>, k: CpuSlab, v: View, o: Obj) {
    list != [] && o.i == list[0] && k.page == Some(o.page) && v.cpu == list[1..] && v.free == free
  }

  /** Every slab but p and every CPU but x is as it was. */
  ghost predicate OthersSame(c: Cache, c': Cache, x: Cpu, p: nat) {
    && (forall q | q != p :: c'.view(q) == c.view(q) && c'.page(q) == c.page(q))
    && (forall y: Cpu | y != x :: c'.cpu(y) == c.cpu(y))
  }

  /** The lists of all slabs outside ps are as they were. */
  ghost predicate OtherLists(view: nat -> View, view': nat -> View, ps: set<nat>) {
    forall q: nat | q !in ps :: view'(q).free == view(q).free && view'(q).cpu == view(q).cpu
  }

  /** What becomes of a slab with this many free objects that is no longer a CPU's current one. */
  ghost predicate Released(partial: seq<nat>, partial': seq<nat>, slabs: set<nat>, slabs': set<nat>, p: nat,
                           free: nat, objects: nat) {
    if free < objects then slabs' == slabs && partial' == (if free > 0 then [p] + partial else partial)
    else if |partial| < MIN_PARTIAL then slabs' == slabs && partial' == partial + [p]
    else slabs' == slabs - {p} && partial' == partial
  }

  /** What becomes of a slab that has got an object back, and so has this many free. */
  ghost predicate Returned(partial: seq<nat>, partial': seq<nat>, slabs: set<nat>, slabs': set<nat>, p: nat, frozen: bool,
                           free: nat, objects: nat) {
    if frozen then slabs' == slabs && partial' == partial
    else if free == objects then slabs' == slabs - {p} && partial' == Del(partial, p)
    else slabs' == slabs && partial' == (if free == 1 then partial + [p] else partial)
  }

  class KmemCache {
    const objects: nat
    var fp: Obj -> Option<Obj>          // the free pointer inside each object
    var page: nat -> Page
    var cpu: Cpu -> CpuSlab
    var partial: seq<nat>
    var nrPartial: nat
    var nrSlabs: nat
    ghost var slabs: set<nat>
    ghost var view: nat -> View
    ghost var handed: Obj -> bool

    ghost function State(): Cache
      reads this
    {
      Cache(objects, fp, page, cpu, partial, nrPartial, nrSlabs, slabs, view, handed)
    }

    ghost predicate Valid()
      reads this
    {
      Inv(State())
    }

    constructor (objects: nat)
      requires objects > 0
      ensures Valid() && slabs == {} && forall o: Obj :: !handed(o)
    {
      this.objects := objects;
      fp := (_ => None);
      page := (_ => Page(None, 0, false));
      cpu := (_ => CpuSlab(None, None));
      partial, nrPartial, nrSlabs, slabs := [], 0, 0, {};
      view := (_ => View([], [], None));
      handed := (_ => false);
    }

    /** new_slab: chain all objects of a page, in order. */
    method NewSlab(p: nat)
      requires objects > 0
      modifies this`fp, this`page, this`nrSlabs
      ensures nrSlabs == old(nrSlabs) + 1
      ensures forall o: Obj | o.page != p :: fp(o) == old(fp)(o)
      ensures Chained(fp, p, Upto(objects))
      ensures page(p) == Page(Some(Obj(p, 0)), 0, old(page)(p).frozen) && forall q | q != p :: page(q) == old(page)(q)
    {
      nrSlabs := nrSlabs + 1;
      var last, k := 0, 0;
      while k < objects
        invariant 0 <= k <= objects && last == (if k == 0 then 0 else k - 1)
        invariant forall o: Obj | o.page != p :: fp(o) == old(fp)(o)
        invariant forall i | 0 <= i < last :: fp(Obj(p, i)) == Some(Obj(p, i + 1))
        modifies this`fp
      {
        fp := Set(fp, Obj(p, last), Some(Obj(p, k)));
        last := k;
        k := k + 1;
      }
      fp := Set(fp, Obj(p, last), None);
      forall i ensures LinkOk(fp, p, Upto(objects), i) { }
      page := Put(page, p, page(p).(freelist := Some(Obj(p, 0)), inuse := 0));
    }

    /**
     deactivate_slab with unfreeze_slab and the partial-list helpers: the CPU's list goes in front of the slab's, last
     object first.  A slab in use goes to the head of the partial list, if it has a free object; an unused one goes to the
     tail, or back to the page allocator if the list is long enough.
     */
    method DeactivateSlab(x: Cpu)
      requires Valid() && cpu(x).page.Some?
      modifies this
      ensures Valid() && cpu(x) == CpuSlab(None, None) && SameHanded(old(handed), handed)
      ensures var p := old(cpu)(x).page.value; var v := old(view)(p);
              && !page(p).frozen && view(p) == View(Reversed(v.cpu) + v.free, [], None)
              && OthersSame(old(State()), State(), x, p)
              && Released(old(partial), partial, old(slabs), slabs, p, |view(p).free|, objects)
    {
      hide Inv;
      hide OthersSame;
      var p := cpu(x).page.value;
      MergeAll(x, p);
      ghost var c := State();
      Unfreezing(x, p);
      UnfreezeEffect(c, x, p);
      OthersAgain(old(State()), c, State(), x, p);
    }

    /** The loop of deactivate_slab. */
    method MergeAll(x: Cpu, p: nat)
      requires Valid() && cpu(x).page == Some(p)
      modifies this`cpu, this`fp, this`page, this`view
      ensures Valid() && cpu(x) == CpuSlab(Some(p), None) && OthersSame(old(State()), State(), x, p)
      ensures var v := old(view)(p); view(p) == v.(free := Reversed(v.cpu) + v.free, cpu := [])
    {
      hide Inv;
      CurrentView(State(), x, p);
      while cpu(x).freelist.Some?
        invariant Valid() && cpu(x).page == Some(p) && OthersSame(old(State()), State(), x, p)
        invariant Reversed(view(p).cpu) + view(p).free == Reversed(old(view)(p).cpu) + old(view)(p).free
        invariant view(p).owner == old(view)(p).owner && (cpu(x).freelist.None? ==> view(p).cpu == [])
        decreases |view(p).cpu|
      {
        MergeTurn(x, p);
        CurrentView(State(), x, p);
      }
    }

    /** One turn of the loop. */
    method MergeTurn(x: Cpu, p: nat)
      requires Valid() && cpu(x).page == Some(p) && cpu(x).freelist.Some?
      modifies this`cpu, this`fp, this`page, this`view
      ensures Valid() && cpu(x).page == Some(p) && OthersSame(old(State()), State(), x, p)
      ensures var v := old(view)(p); v.cpu != [] && view(p) == v.(free := [v.cpu[0]] + v.free, cpu := v.cpu[1..])
    {
      hide Inv;
      var obj := cpu(x).freelist.value;
      MergeKeeps(State(), x, p, obj);
      CurrentView(State(), x, p);
      ghost var v := view(p);
      cpu := Put(cpu, x, CpuSlab(Some(p), fp(obj)));
      fp := Set(fp, obj, page(p).freelist);
      page := Put(page, p, page(p).(freelist := Some(obj), inuse := page(p).inuse - 1));
      view := Put(view, p, v.(free := [obj.i] + v.free, cpu := Tail(v.cpu)));
      assert State() == Merge(old(State()), x, p, obj);
    }

    method Unfreezing(x: Cpu, p: nat)
      requires Valid() && cpu(x) == CpuSlab(Some(p), None)
      modifies this
      ensures State() == Unfreeze(old(State()), x, p) && Valid()
    {
      hide Inv;
      UnfreezeKeeps(State(), x, p);
      SlabCounted(State(), x, p);
      cpu := Put(cpu, x, CpuSlab(None, cpu(x).freelist));
      page := Put(page, p, page(p).(frozen := false));
      view := Put(view, p, view(p).(owner := None));
      if page(p).inuse > 0 {
        if page(p).freelist.Some? {
          nrPartial := nrPartial + 1;
          partial := [p] + partial;
        }
      } else if nrPartial < MIN_PARTIAL {
        nrPartial := nrPartial + 1;
        partial := partial + [p];
      } else {
        nrSlabs := nrSlabs - 1;
        slabs := slabs - {p};
      }
    }

    /** load_freelist: the object to hand out, if the current slab has any on its own list. */
    method LoadFreelist(x: Cpu) returns (r: Option<Obj>)
      requires Valid() && cpu(x).page.Some? && cpu(x).freelist == None
      modifies this`cpu, this`page, this`view, this`handed
      ensures Valid() && r == old(page)(old(cpu)(x).page.value).freelist
      ensures if r.None? then State() == old(State()) else Gained(old(handed), handed, r.value) && r.value.page in slabs
      ensures r.Some? ==>
                var p := old(cpu)(x).page.value;
                r.value.page == p && Served(old(view)(p).free, [], cpu(x), view(p), r.value) && OthersSame(old(State()), State(), x, p)
    {
      hide Inv;
      var p := cpu(x).page.value;
      r := page(p).freelist;
      CurrentView(State(), x, p);
      if r.Some? {
        LoadKeeps(State(), x, p, r.value);
        CurrentLive(State(), x, p);
        ghost var v := view(p);
        cpu := Put(cpu, x, CpuSlab(Some(p), fp(r.value)));
        page := Put(page, p, page(p).(inuse := objects, freelist := None));
        view := Put(view, p, v.(free := [], cpu := Tail(v.free)));
        handed := Set(handed, r.value, true);
        assert State() == Load(old(State()), x, p, r.value);
      }
    }

    /** get_partial, and making the slab the current one. */
    method GetPartial(x: Cpu) returns (found: bool)
      requires Valid() && cpu(x) == CpuSlab(None, None)
      modifies this`partial, this`nrPartial, this`page, this`view, this`cpu
      ensures Valid() && found == (old(partial) != [])
      ensures found ==> cpu(x) == CpuSlab(Some(old(partial)[0]), None) && page(old(partial)[0]).freelist.Some?
      ensures found ==> var p := old(partial)[0];
                        && partial == old(partial)[1..] && OthersSame(old(State()), State(), x, p)
                        && page(p).freelist == old(page)(p).freelist && view(p) == old(view)(p).(owner := Some(x))
      ensures !found ==> State() == old(State())
    {
      hide Inv;
      PartialCounted(State());
      if nrPartial == 0 {
        return false;
      }
      TakePartialKeeps(State(), x);
      var p := partial[0];
      partial := partial[1..];
      nrPartial := nrPartial - 1;
      page := Put(page, p, page(p).(frozen := true));
      view := Put(view, p, view(p).(owner := Some(x)));
      cpu := Put(cpu, x, CpuSlab(Some(p), None));
      assert State() == TakePartial(old(State()), x);
      return true;
    }

    /** new_slab, and making the slab the current one. */
    method AddNewSlab(x: Cpu, p: nat)
      requires Valid() && cpu(x) == CpuSlab(None, None) && p !in slabs
      modifies this
      ensures Valid() && cpu(x) == CpuSlab(Some(p), None) && page(p).freelist == Some(Obj(p, 0)) && handed == old(handed)
      ensures slabs == old(slabs) + {p} && partial == old(partial) && view(p) == View(Upto(objects), [], Some(x))
      ensures OthersSame(old(State()), State(), x, p)
    {
      hide Inv;
      Positive(State());
      NewSlab(p);
      page := Put(page, p, page(p).(frozen := true));
      AddSlabKeeps(old(State()), x, p, fp, page);
      cpu := Put(cpu, x, CpuSlab(Some(p), None));
      view := Put(view, p, View(Upto(objects), [], Some(x)));
      slabs := slabs + {p};
      assert State() == AddSlab(old(State()), x, p, fp, page);
    }

    /**
     __slab_alloc.  `newPage` is the page that the page allocator would give.  The object is the first free one of the
     current slab or, if that is used up, of the first slab on the partial list or, if that is empty, of a new slab; only
     then a page is taken.  The result is None only if there is none of these.
     */
    method SlabAllocSlow(x: Cpu, newPage: Option<nat>) returns (r: Option<Obj>)
      requires Valid() && cpu(x).freelist == None && (newPage.Some? ==> newPage.value !in slabs)
      modifies this
      ensures Valid()
      ensures if r.None? then SameHanded(old(handed), handed) else Gained(old(handed), handed, r.value) && r.value.page in slabs
      ensures r.None? <==> newPage.None? && old(partial) == [] && NothingLeft(old(State()), x)
      ensures !NothingLeft(old(State()), x) ==>
                r == old(page)(old(cpu)(x).page.value).freelist && partial == old(partial) && slabs == old(slabs)
      ensures NothingLeft(old(State()), x) && old(partial) != [] ==>
                r == old(page)(old(partial)[0]).freelist && partial == old(partial)[1..] && slabs == old(slabs)
      ensures NothingLeft(old(State()), x) && old(partial) == [] && newPage.Some? ==>
                r == Some(Obj(newPage.value, 0)) && partial == [] && slabs == old(slabs) + {newPage.value}
      ensures r.None? ==> partial == [] && slabs == old(slabs)
      ensures r.Some? ==>
                var p := r.value.page;
                Served(if p in old(slabs) then old(view)(p).free else Upto(objects), [], cpu(x), view(p), r.value)
      ensures OtherLists(old(view), view, if r.None? then {} else {r.value.page})
    {
      hide Inv;
      hide OthersSame;
      ghost var c := State();
      if cpu(x).page.Some? {
        ghost var p := cpu(x).page.value;
        CurrentView(c, x, p);
        r := LoadFreelist(x);
        if r.Some? {
          OtherViews(c, State(), x, p);
          CurrentLive(c, x, p);
          return;
        }
        DeactivateSlab(x);
        ReleasedFull(c, State(), x, p);
      } else {
        NoPageNoList(c, x);
        assert OtherLists(view, view, {});
      }
      r := NextSlab(x, newPage);
    }

    /** The part from new_slab on: the CPU has no slab. */
    method NextSlab(x: Cpu, newPage: Option<nat>) returns (r: Option<Obj>)
      requires Valid() && cpu(x) == CpuSlab(None, None) && (newPage.Some? ==> newPage.value !in slabs)
      modifies this
      ensures Valid() && (r.None? <==> newPage.None? && old(partial) == [])
      ensures if r.None? then SameHanded(old(handed), handed) else Gained(old(handed), handed, r.value) && r.value.page in slabs
      ensures old(partial) != [] ==>
                r == old(page)(old(partial)[0]).freelist && partial == old(partial)[1..] && slabs == old(slabs)
      ensures old(partial) == [] && newPage.Some? ==>
                r == Some(Obj(newPage.value, 0)) && partial == [] && slabs == old(slabs) + {newPage.value}
      ensures r.None? ==> partial == [] && slabs == old(slabs)
      ensures r.Some? ==>
                var p := r.value.page;
                Served(if p in old(slabs) then old(view)(p).free else Upto(objects), [], cpu(x), view(p), r.value)
      ensures OtherLists(old(view), view, if r.None? then {} else {r.value.page})
    {
      hide Inv;
      hide OthersSame;
      ghost var c := State();
      var found := GetPartial(x);
      if found {
        PartialLive(c);
        ghost var c1 := State();
        r := LoadFreelist(x);
        OthersAgain(c, c1, State(), x, c.partial[0]);
        OtherViews(c, State(), x, c.partial[0]);
        return;
      }
      if newPage.None? {
        return None;
      }
      assert cpu(x).page.None?;   // so there is nothing to flush before the new slab comes in
      AddNewSlab(x, newPage.value);
      ghost var c1 := State();
      r := LoadFreelist(x);
      OthersAgain(c, c1, State(), x, newPage.value);
      OtherViews(c, State(), x, newPage.value);
    }

    /** slab_alloc */
    method SlabAlloc(x: Cpu, newPage: Option<nat>) returns (r: Option<Obj>)
      requires Valid() && (newPage.Some? ==> newPage.value !in slabs)
      modifies this
      ensures Valid()
      ensures if r.None? then SameHanded(old(handed), handed) else Gained(old(handed), handed, r.value) && r.value.page in slabs
      ensures r.None? <==> newPage.None? && old(partial) == [] && old(cpu)(x).freelist == None && NothingLeft(old(State()), x)
      ensures old(cpu)(x).freelist.Some? ==>
                && r == old(cpu)(x).freelist && partial == old(partial) && slabs == old(slabs) && page == old(page) && fp == old(fp)
                && Served(old(view)(r.value.page).cpu, old(view)(r.value.page).free, cpu(x), view(r.value.page), r.value)
      ensures OtherLists(old(view), view, if r.None? then {} else {r.value.page})
    {
      hide Inv;
      if cpu(x).freelist == None {
        r := SlabAllocSlow(x, newPage);
      } else {
        var obj := cpu(x).freelist.value;
        ListNeedsPage(State(), x);
        var p := cpu(x).page.value;
        CurrentView(State(), x, p);
        PopKeeps(State(), x, p, obj);
        CurrentLive(State(), x, p);
        ghost var v := view(p);
        cpu := Put(cpu, x, CpuSlab(Some(p), fp(obj)));
        view := Put(view, p, v.(cpu := Tail(v.cpu)));
        handed := Set(handed, obj, true);
        assert State() == Pop(old(State()), x, p, obj);
        r := Some(obj);
      }
    }

    /**
     __slab_free: the object becomes the first of its slab's list.  An unfrozen slab that is unused now goes back to the
     page allocator, one that was full goes to the tail of the partial list.
     */
    method SlabFreeSlow(o: Obj)
      requires Valid() && handed(o)
      modifies this
      ensures Valid() && State() == FreeSlow(old(State()), o)
      ensures var v := old(view)(o.page); view(o.page) == v.(free := [o.i] + v.free)
      ensures cpu == old(cpu) && OtherLists(old(view), view, {o.page})
      ensures Returned(old(partial), partial, old(slabs), slabs, o.page, old(page)(o.page).frozen, |view(o.page).free|, objects)
    {
      hide Inv;
      HandedView(State(), o);
      FreeSlowKeeps(State(), o);
      SlabInUse(State(), o);
      var p := o.page;
      var prior := page(p).freelist;
      ghost var v := view(p);
      fp := Set(fp, o, prior);
      page := Put(page, p, page(p).(freelist := Some(o), inuse := page(p).inuse - 1));
      view := Put(view, p, v.(free := [o.i] + v.free));
      handed := Set(handed, o, false);
      assert State() == GiveBack(old(State()), o);
      if page(p).frozen {
        return;
      }
      if page(p).inuse == 0 {
        if prior.Some? {
          partial := Del(partial, p);
          nrPartial := nrPartial - 1;
        }
        nrSlabs := nrSlabs - 1;
        slabs := slabs - {p};
      } else if prior.None? {
        nrPartial := nrPartial + 1;
        partial := partial + [p];
      }
    }

    /** slab_free: exactly the freed object changes hands; an object of the CPU's own slab becomes the first of its list. */
    method SlabFree(x: Cpu, o: Obj)
      requires Valid() && handed(o)
      modifies this
      ensures Valid() && Gained(handed, old(handed), o) && OtherLists(old(view), view, {o.page})
      ensures old(cpu)(x).page == Some(o.page) ==>
                && cpu(x) == old(cpu)(x).(freelist := Some(o)) && view(o.page).cpu == [o.i] + old(view)(o.page).cpu
                && view(o.page).free == old(view)(o.page).free
                && partial == old(partial) && slabs == old(slabs) && page == old(page)
      ensures old(cpu)(x).page != Some(o.page) ==>
                && cpu(x) == old(cpu)(x) && view(o.page).free == [o.i] + old(view)(o.page).free
                && view(o.page).cpu == old(view)(o.page).cpu
                && Returned(old(partial), partial, old(slabs), slabs, o.page, old(page)(o.page).frozen,
                            |view(o.page).free|, objects)
      ensures forall y: Cpu | y != x :: cpu(y) == old(cpu)(y)
    {
      hide Inv;
      if cpu(x).page == Some(o.page) {
        FreeFastKeeps(State(), x, o);
        ghost var v := view(o.page);
        fp := Set(fp, o, cpu(x).freelist);
        cpu := Put(cpu, x, cpu(x).(freelist := Some(o)));
        view := Put(view, o.page, v.(cpu := [o.i] + v.cpu));
        handed := Set(handed, o, false);
        assert State() == FreeFast(old(State()), x, o);
      } else {
        SlabFreeSlow(o);
      }
    }

    /** An object taken from the CPU's own list and given back leaves everything as it was. */
    method AllocThenFree(x: Cpu, newPage: Option<nat>) returns (o: Obj)
      requires Valid() && cpu(x).freelist.Some? && (newPage.Some? ==> newPage.value !in slabs)
      modifies this
      ensures Valid() && SameHanded(old(handed), handed) && cpu(x) == old(cpu)(x) && Some(o) == old(cpu)(x).freelist
      ensures OtherLists(old(view), view, {}) && partial == old(partial) && slabs == old(slabs) && page == old(page)
    {
      hide Inv;
      ListNeedsPage(State(), x);
      var p := cpu(x).page.value;
      CurrentView(State(), x, p);
      var r := SlabAlloc(x, newPage);
      o := r.value;
      SlabFree(x, o);
      assert old(view)(p).cpu == [o.i] + old(view)(p).cpu[1..];
    }

    /** A caller may write anything into an object it has. */
    method CallerWrites(o: Obj, value: Option<Obj>)
      requires Valid() && handed(o)
      modifies this`fp
      ensures Valid() && fp(o) == value && forall y: Obj | y != o :: fp(y) == old(fp)(y)
    {
      hide SlabOk;
      fp := Set(fp, o, value);
      ghost var c, c' := old(State()), State();
      forall p | p in slabs ensures SlabOk(c', p) { SlabFrame(c, c', p); }
      forall x ensures CpuOk(c', x) { assert CpuOk(c, x); }
    }
  }

  /** CPU x has no slab, or its slab has nothing on its own list. */
  ghost predicate NothingLeft(c: Cache, x: Cpu) {
    c.cpu(x).page.None? || c.page(c.cpu(x).page.value).freelist.None?
  }

  // ---------------------------------------------------------------------------
  // Facts the operations use

  lemma Positive(c: Cache) requires Inv(c) ensures c.objects > 0 { }

  /** The pointers of a current slab, as lists. */
  lemma CurrentView(c: Cache, x: Cpu, p: nat)
    requires Inv(c) && Current(c, x, p)
    ensures var v := c.view(p);
            && v.owner == Some(x) && c.cpu(x).freelist == At(p, v.cpu, 0) && c.page(p).freelist == At(p, v.free, 0)
            && c.page(p).inuse + |v.free| == c.objects > 0
  {
    CurrentFacts(c, x, p);
  }

  lemma HandedView(c: Cache, o: Obj)
    requires Inv(c) && c.handed(o)
    ensures var v, g := c.view(o.page), c.page(o.page);
            && g.freelist == At(o.page, v.free, 0) && g.inuse + |v.free| == c.objects && g.frozen == v.owner.Some?
            && (!g.frozen && v.free == [] ==> o.page !in c.partial) && (o.page !in c.partial ==> Del(c.partial, o.page) == c.partial)
  {
    assert SlabOk(c, o.page);
    DelAbsent(c.partial, o.page);
  }

  lemma OthersAgain(c0: Cache, c1: Cache, c2: Cache, x: Cpu, p: nat)
    requires OthersSame(c0, c1, x, p) && OthersSame(c1, c2, x, p)
    ensures OthersSame(c0, c2, x, p)
  {
  }

  lemma OtherViews(c: Cache, c': Cache, x: Cpu, p: nat)
    requires OthersSame(c, c', x, p)
    ensures OtherLists(c.view, c'.view, {p})
  {
  }

  /** What unfreezing does to the partial list and the set of slabs. */
  lemma UnfreezeEffect(c: Cache, x: Cpu, p: nat)
    requires Inv(c) && c.cpu(x) == CpuSlab(Some(p), None)
    ensures var c' := Unfreeze(c, x, p);
            && c'.cpu(x) == CpuSlab(None, None) && c'.handed == c.handed && OthersSame(c, c', x, p)
            && !c'.page(p).frozen && c'.view(p) == c.view(p).(owner := None)
            && Released(c.partial, c'.partial, c.slabs, c'.slabs, p, |c.view(p).free|, c.objects)
  {
    hide SlabOk;
    CurrentView(c, x, p);
  }

  /** A current slab that is used up leaves the lists and the partial list alone. */
  lemma ReleasedFull(c: Cache, c': Cache, x: Cpu, p: nat)
    requires Inv(c) && c.cpu(x) == CpuSlab(Some(p), None) && c.page(p).freelist == None && OthersSame(c, c', x, p)
    requires c'.view(p) == View(Reversed(c.view(p).cpu) + c.view(p).free, [], None)
    requires Released(c.partial, c'.partial, c.slabs, c'.slabs, p, |c'.view(p).free|, c.objects)
    ensures OtherLists(c.view, c'.view, {}) && c'.partial == c.partial && c'.slabs == c.slabs
    ensures forall q | q in c.partial :: c'.page(q) == c.page(q)
  {
    hide SlabOk;
    CurrentView(c, x, p);
  }

  lemma PartialLive(c: Cache)
    requires Inv(c)
    ensures forall p | p in c.partial :: p in c.slabs
  {
  }

  lemma CurrentLive(c: Cache, x: Cpu, p: nat)
    requires Inv(c) && Current(c, x, p)
    ensures p in c.slabs
  {
    CurrentFacts(c, x, p);
  }

  lemma ListNeedsPage(c: Cache, x: Cpu)
    requires Inv(c) && c.cpu(x).freelist.Some?
    ensures c.cpu(x).page.Some?
  {
    assert CpuOk(c, x);
  }

  lemma NoPageNoList(c: Cache, x: Cpu)
    requires Inv(c) && c.cpu(x).page.None?
    ensures c.cpu(x).freelist.None?
  {
    assert CpuOk(c, x);
  }

  lemma PartialCounted(c: Cache)
    requires Inv(c)
    ensures c.nrPartial == |c.partial|
  {
  }

  lemma SlabCounted(c: Cache, x: Cpu, p: nat)
    requires Inv(c) && Current(c, x, p)
    ensures c.nrSlabs > 0
  {
    CurrentFacts(c, x, p);
  }

  lemma SlabInUse(c: Cache, o: Obj)
    requires Inv(c) && c.handed(o)
    ensures c.page(o.page).inuse > 0 && c.nrSlabs > 0
    ensures !c.page(o.page).frozen && c.page(o.page).freelist.Some? ==> c.nrPartial > 0
  {
    GiveBackKeeps(c, o);
  }

  // ---------------------------------------------------------------------------
  // What the invariant says, for every reachable state

  /** Every object of a live slab is with a caller, on its slab's list or on one CPU's list, and only one of these. */
  lemma ExactlyOnePlace(c: Cache, p: nat, i: nat)
    requires Inv(c) && p in c.slabs && i < c.objects
    ensures var v := c.view(p);
            var places := (if c.handed(Obj(p, i)) then 1 else 0) + (if i in v.free then 1 else 0) + (if i in v.cpu then 1 else 0);
            places == 1
    ensures i in c.view(p).cpu ==> exists x: Cpu :: c.cpu(x).page == Some(p)
  {
    assert SlabOk(c, p);
    var v := c.view(p);
    if v.owner.Some? { assert c.cpu(v.owner.value).page == Some(p); }
  }

  /** A slab is frozen exactly when it is some CPU's current slab, and never that of two. */
  lemma FrozenIffCurrent(c: Cache, p: nat)
    requires Inv(c) && p in c.slabs
    ensures c.page(p).frozen <==> exists x: Cpu :: Current(c, x, p)
    ensures forall x: Cpu, y: Cpu :: Current(c, x, p) && Current(c, y, p) ==> x == y
  {
    assert SlabOk(c, p);
    if c.page(p).frozen { assert Current(c, c.view(p).owner.value, p); }
    forall x: Cpu | Current(c, x, p) ensures c.page(p).frozen { CurrentFacts(c, x, p); }
    forall x: Cpu, y: Cpu | Current(c, x, p) && Current(c, y, p) ensures x == y { CurrentFacts(c, x, p); }
  }

  /** An unfrozen slab is on the partial list exactly when it has a free object; the counters are exact. */
  lemma PartialIffFree(c: Cache, p: nat)
    requires Inv(c) && p in c.slabs && !c.page(p).frozen
    ensures p in c.partial <==> c.page(p).freelist.Some?
    ensures p in c.partial <==> exists i: nat :: i < c.objects && !c.handed(Obj(p, i))
    ensures c.nrPartial == |Elems(c.partial)| && c.nrSlabs == |c.slabs|
    ensures c.page(p).inuse + |c.view(p).free| == c.objects
  {
    assert SlabOk(c, p);
    ElemsCount(c.partial);
    var v := c.view(p);
    if v.free != [] { assert v.free[0] in v.free && !c.handed(Obj(p, v.free[0])); }
  }
}
