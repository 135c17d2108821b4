/**
 When the evaluation of a Kconfig symbol ends (scripts/kconfig/kconfiglib.py, configurations without choices).

 The recursion of tri_value is given a bound; the evaluation ends if some bound is large enough.  That the scan for
 loops passes is not enough: a tristate symbol whose value or visibility comes out as m asks whether modules are
 enabled, and so reads MODULES, without being recorded as a dependent of it.
 */
module KconfigEnds {
  import opened KconfigExpr
  import opened KconfigEval
  import opened KconfigLoop
  import opened KconfigDeps
  import opened Options

  /** What is known about the values of the symbols; None for those whose evaluation has not ended. */
  type Reads = Sym -> Option<Tri>

  // ---------------------------------------------------------------------------
  // One call of tri_value, given the values of what it reads, and `mods` for MODULES when it is asked for a type

  function SymR(c: Config, s: Sym, rd: Reads): Option<Tri> { if s in c.defined then rd(s) else Some(c.fixed(s)) }

  function ExprR(c: Config, e: Expr, rd: Reads): Option<Tri> {
    match e
    case Leaf(s) => SymR(c, s, rd)
    case And(l, r) =>
      var a := ExprR(c, l, rd);
      if a.None? || a.value == 0 then a
      else var d := ExprR(c, r, rd); if d.None? then None else Some(Min(a.value, d.value))
    case Or(l, r) =>
      var a := ExprR(c, l, rd);
      if a.None? || a.value == 2 then a
      else var d := ExprR(c, r, rd); if d.None? then None else Some(Max(a.value, d.value))
    case Not(y) => var a := ExprR(c, y, rd); if a.None? then None else Some(2 - a.value)
    case Rel(op, s, t) =>
      var p, q := SymR(c, s, rd), SymR(c, t, rd);
      if p.None? || q.None? then None else Some(if Holds(op, c.comp(s, t, p.value, q.value)) then 2 else 0)
  }

  function TypeR(c: Config, x: Sym, mods: Option<Tri>): Option<Tri> {
    if !c.tristate(x) then Some(0)
    else
      var m := if Modules in c.defined then mods else Some(c.fixed(Modules));
      if m.None? then None else Some(if m.value != 0 then 2 else 0)
  }

  function PromptsR(c: Config, x: Sym, k: nat, rd: Reads): Option<Tri>
    requires k <= |c.prompts(x)|
  {
    if k == 0 then Some(0)
    else
      var a, d := PromptsR(c, x, k - 1, rd), ExprR(c, c.prompts(x)[k - 1], rd);
      if a.None? || d.None? then None else Some(Max(a.value, d.value))
  }

  function VisR(c: Config, x: Sym, rd: Reads, mods: Option<Tri>): Option<Tri> {
    var p := PromptsR(c, x, |c.prompts(x)|, rd);
    if p.None? || p.value != 1 then p
    else var t := TypeR(c, x, mods); if t.None? then None else Some(if t.value == 0 then 2 else 1)
  }

  function DefaultsR(c: Config, x: Sym, k: nat, rd: Reads): Option<Tri>
    requires k <= |c.defaults(x)|
    decreases |c.defaults(x)| - k
  {
    if k == |c.defaults(x)| then Some(0)
    else
      var cond := ExprR(c, c.defaults(x)[k].1, rd);
      if cond.None? then None
      else if cond.value == 0 then DefaultsR(c, x, k + 1, rd)
      else var d := ExprR(c, c.defaults(x)[k].0, rd); if d.None? then None else Some(Min(d.value, cond.value))
  }

  function ImpliedR(c: Config, x: Sym, rd: Reads): Option<Tri> {
    var d, w := DefaultsR(c, x, 0, rd), ExprR(c, c.weak(x), rd);
    if d.None? || w.None? then None
    else if w.value == 0 then d
    else
      var dir := ExprR(c, c.direct(x), rd);
      if dir.None? then None else Some(if dir.value != 0 then Max(w.value, d.value) else d.value)
  }

  function OwnR(c: Config, u: User, x: Sym, rd: Reads, mods: Option<Tri>): Option<Tri> {
    var vis := VisR(c, x, rd, mods);
    if vis.None? then None
    else if vis.value != 0 && u(x).Some? then Some(Min(u(x).value, vis.value))
    else ImpliedR(c, x, rd)
  }

  function SelectedR(c: Config, u: User, x: Sym, rd: Reads, mods: Option<Tri>): Option<Tri> {
    var a, r := OwnR(c, u, x, rd, mods), ExprR(c, c.rev(x), rd);
    if a.None? || r.None? then None
    else if r.value == 0 then a
    else if ExprR(c, c.direct(x), rd).None? then None
    else Some(Max(r.value, a.value))
  }

  function TriR(c: Config, u: User, x: Sym, rd: Reads, mods: Option<Tri>): Option<Tri> {
    var a := SelectedR(c, u, x, rd, mods);
    if a.None? || a.value != 1 then a
    else
      var t := TypeR(c, x, mods);
      if t.None? then None
      else if t.value == 0 then Some(2)
      else
        var w := ExprR(c, c.weak(x), rd);
        if w.None? then None else Some(if w.value == 2 then 2 else 1)
  }

  // ---------------------------------------------------------------------------
  // The recursion

  /**
   tri_value with at most n calls on the stack.  With `blind`, whoever asks for the type of a tristate symbol while
   MODULES is a defined symbol gets no answer.
   */
  function TriF(c: Config, u: User, blind: bool, n: nat, x: Sym): Option<Tri>
    decreases n, 0
  {
    if n == 0 then None
    else TriR(c, u, x, Pass(c, u, blind, n - 1), if blind then None else TriF(c, u, blind, n - 1, Modules))
  }

  function Pass(c: Config, u: User, blind: bool, n: nat): Reads
    decreases n, 1
  {
    (y: Sym) => TriF(c, u, blind, n, y)
  }

  /** The evaluation of x ends. */
  ghost predicate Ends(c: Config, u: User, x: Sym) { exists n: nat :: TriF(c, u, false, n, x).Some? }

  /** ... without asking whether modules are enabled; r(x) + 1 calls are enough to find out. */
  predicate Quiet(c: Config, u: User, r: Sym -> nat, x: Sym) { TriF(c, u, true, r(x) + 1, x).Some? }

  // ---------------------------------------------------------------------------
  // Knowing more values does not change a result

  predicate Refines(a: Option<Tri>, a': Option<Tri>) { a.Some? ==> a' == a }

  /** For everything in e. */
  ghost predicate KnowsMore(c: Config, e: Expr, rd: Reads, rd': Reads) {
    forall s | Mentions(e, s) && s in c.defined :: Refines(rd(s), rd'(s))
  }

  /** For everything in the definition of x. */
  ghost predicate KnowsMoreAt(c: Config, x: Sym, rd: Reads, rd': Reads) {
    forall s | Uses(c, x, s) && s in c.defined :: Refines(rd(s), rd'(s))
  }

  lemma {:induction false} ExprRefines(c: Config, e: Expr, rd: Reads, rd': Reads)
    requires KnowsMore(c, e, rd, rd')
    ensures Refines(ExprR(c, e, rd), ExprR(c, e, rd'))
  {
    match e
    case Leaf(s) => assert Mentions(e, s);
    case And(l, r) =>
      assert forall s | Mentions(l, s) || Mentions(r, s) :: Mentions(e, s);
      ExprRefines(c, l, rd, rd');
      ExprRefines(c, r, rd, rd');
    case Or(l, r) =>
      assert forall s | Mentions(l, s) || Mentions(r, s) :: Mentions(e, s);
      ExprRefines(c, l, rd, rd');
      ExprRefines(c, r, rd, rd');
    case Not(y) =>
      assert forall s | Mentions(y, s) :: Mentions(e, s);
      ExprRefines(c, y, rd, rd');
    case Rel(_, s, t) => assert Mentions(e, s) && Mentions(e, t);
  }

  lemma {:induction false} PromptsRefine(c: Config, x: Sym, k: nat, rd: Reads, rd': Reads)
    requires KnowsMoreAt(c, x, rd, rd') && k <= |c.prompts(x)|
    ensures Refines(PromptsR(c, x, k, rd), PromptsR(c, x, k, rd'))
  {
    hide ExprR;
    if k > 0 {
      PromptsRefine(c, x, k - 1, rd, rd');
      InDefinition(c, x);
      ExprRefines(c, c.prompts(x)[k - 1], rd, rd');
    }
  }

  lemma {:induction false} DefaultsRefine(c: Config, x: Sym, k: nat, rd: Reads, rd': Reads)
    requires KnowsMoreAt(c, x, rd, rd') && k <= |c.defaults(x)|
    ensures Refines(DefaultsR(c, x, k, rd), DefaultsR(c, x, k, rd'))
    decreases |c.defaults(x)| - k
  {
    hide ExprR;
    if k < |c.defaults(x)| {
      InDefinition(c, x);
      ExprRefines(c, c.defaults(x)[k].0, rd, rd');
      ExprRefines(c, c.defaults(x)[k].1, rd, rd');
      DefaultsRefine(c, x, k + 1, rd, rd');
    }
  }

  /** The symbols in the expressions of a definition are those that it uses. */
  lemma InDefinition(c: Config, x: Sym)
    ensures forall k, s | 0 <= k < |c.prompts(x)| && Mentions(c.prompts(x)[k], s) :: Uses(c, x, s)
    ensures forall k, s | 0 <= k < |c.defaults(x)| && Mentions(c.defaults(x)[k].0, s) :: Uses(c, x, s)
    ensures forall k, s | 0 <= k < |c.defaults(x)| && Mentions(c.defaults(x)[k].1, s) :: Uses(c, x, s)
  {
    hide Mentions;
  }

  lemma VisRefines(c: Config, x: Sym, rd: Reads, rd': Reads, mods: Option<Tri>, mods': Option<Tri>)
    requires KnowsMoreAt(c, x, rd, rd') && Refines(mods, mods')
    ensures Refines(VisR(c, x, rd, mods), VisR(c, x, rd', mods'))
  {
    hide PromptsR;
    PromptsRefine(c, x, |c.prompts(x)|, rd, rd');
  }

  lemma ImpliedRefines(c: Config, x: Sym, rd: Reads, rd': Reads)
    requires KnowsMoreAt(c, x, rd, rd')
    ensures Refines(ImpliedR(c, x, rd), ImpliedR(c, x, rd'))
  {
    hide ExprR;
    hide DefaultsR;
    hide Mentions;
    DefaultsRefine(c, x, 0, rd, rd');
    ExprRefines(c, c.weak(x), rd, rd');
    ExprRefines(c, c.direct(x), rd, rd');
  }

  lemma OwnRefines(c: Config, u: User, x: Sym, rd: Reads, rd': Reads, mods: Option<Tri>, mods': Option<Tri>)
    requires KnowsMoreAt(c, x, rd, rd') && Refines(mods, mods')
    ensures Refines(OwnR(c, u, x, rd, mods), OwnR(c, u, x, rd', mods'))
  {
    hide VisR;
    hide ImpliedR;
    VisRefines(c, x, rd, rd', mods, mods');
    ImpliedRefines(c, x, rd, rd');
  }

  lemma TriRefines(c: Config, u: User, x: Sym, rd: Reads, rd': Reads, mods: Option<Tri>, mods': Option<Tri>)
    requires KnowsMoreAt(c, x, rd, rd') && Refines(mods, mods')
    ensures Refines(TriR(c, u, x, rd, mods), TriR(c, u, x, rd', mods'))
  {
    hide ExprR;
    hide OwnR;
    hide Mentions;
    OwnRefines(c, u, x, rd, rd', mods, mods');
    ExprRefines(c, c.rev(x), rd, rd');
    ExprRefines(c, c.direct(x), rd, rd');
    ExprRefines(c, c.weak(x), rd, rd');
  }

  // ---------------------------------------------------------------------------
  // The exact condition

  /** A larger bound changes nothing; and if an evaluation does not ask, the answer would not have mattered. */
  lemma {:induction false} MoreFuel(c: Config, u: User, blind: bool, blind': bool, n: nat, n': nat, x: Sym)
    requires n <= n' && (blind' ==> blind)
    ensures Refines(TriF(c, u, blind, n, x), TriF(c, u, blind', n', x))
    decreases n
  {
    hide TriR;
    if n > 0 {
      var rd, rd' := Pass(c, u, blind, n - 1), Pass(c, u, blind', n' - 1);
      forall y: Sym ensures Refines(rd(y), rd'(y)) { MoreFuel(c, u, blind, blind', n - 1, n' - 1, y); }
      MoreFuel(c, u, blind, blind', n - 1, n' - 1, Modules);
      var mods := if blind then None else TriF(c, u, blind, n - 1, Modules);
      var mods' := if blind' then None else TriF(c, u, blind', n' - 1, Modules);
      TriRefines(c, u, x, rd, rd', mods, mods');
    }
  }

  /** If the evaluation of MODULES asks, an evaluation that ends does not. */
  lemma {:induction false} EndsBlind(c: Config, u: User, n: nat, x: Sym)
    requires forall k: nat :: TriF(c, u, true, k, Modules).None?
    ensures Refines(TriF(c, u, false, n, x), TriF(c, u, true, n, x))
  {
    hide TriR;
    if n > 0 {
      var rd, rd' := Pass(c, u, false, n - 1), Pass(c, u, true, n - 1);
      forall y: Sym ensures Refines(rd(y), rd'(y)) { EndsBlind(c, u, n - 1, y); }
      EndsBlind(c, u, n - 1, Modules);
      assert TriF(c, u, true, n - 1, Modules).None?;
      TriRefines(c, u, x, rd, rd', TriF(c, u, false, n - 1, Modules), None);
    }
  }

  /** The rank bounds how deep a blind evaluation can go. */
  lemma {:induction false} RankSuffices(c: Config, u: User, r: Sym -> nat, n: nat, n': nat, x: Sym)
    requires Ranked(c, r) && x in c.defined && n' > r(x)
    ensures Refines(TriF(c, u, true, n, x), TriF(c, u, true, n', x))
    decreases n
  {
    hide TriR;
    hide Uses;
    if n > 0 {
      var rd, rd' := Pass(c, u, true, n - 1), Pass(c, u, true, n' - 1);
      forall s | Uses(c, x, s) && s in c.defined ensures Refines(rd(s), rd'(s)) {
        RankSuffices(c, u, r, n - 1, n' - 1, s);
      }
      TriRefines(c, u, x, rd, rd', None, None);
    }
  }

  // If all that is read is known, there is a result.

  lemma {:induction false} ExprKnown(c: Config, e: Expr, rd: Reads)
    requires forall s | Mentions(e, s) && s in c.defined :: rd(s).Some?
    ensures ExprR(c, e, rd).Some?
  {
    match e
    case Leaf(s) => assert Mentions(e, s);
    case And(l, r) =>
      assert forall s | Mentions(l, s) || Mentions(r, s) :: Mentions(e, s);
      ExprKnown(c, l, rd);
      ExprKnown(c, r, rd);
    case Or(l, r) =>
      assert forall s | Mentions(l, s) || Mentions(r, s) :: Mentions(e, s);
      ExprKnown(c, l, rd);
      ExprKnown(c, r, rd);
    case Not(y) =>
      assert forall s | Mentions(y, s) :: Mentions(e, s);
      ExprKnown(c, y, rd);
    case Rel(_, s, t) => assert Mentions(e, s) && Mentions(e, t);
  }

  ghost predicate KnownAt(c: Config, x: Sym, rd: Reads) { forall s | Uses(c, x, s) && s in c.defined :: rd(s).Some? }

  lemma {:induction false} PromptsKnown(c: Config, x: Sym, k: nat, rd: Reads)
    requires KnownAt(c, x, rd) && k <= |c.prompts(x)|
    ensures PromptsR(c, x, k, rd).Some?
  {
    hide ExprR;
    if k > 0 {
      PromptsKnown(c, x, k - 1, rd);
      InDefinition(c, x);
      ExprKnown(c, c.prompts(x)[k - 1], rd);
    }
  }

  lemma {:induction false} DefaultsKnown(c: Config, x: Sym, k: nat, rd: Reads)
    requires KnownAt(c, x, rd) && k <= |c.defaults(x)|
    ensures DefaultsR(c, x, k, rd).Some?
    decreases |c.defaults(x)| - k
  {
    hide ExprR;
    if k < |c.defaults(x)| {
      InDefinition(c, x);
      ExprKnown(c, c.defaults(x)[k].0, rd);
      ExprKnown(c, c.defaults(x)[k].1, rd);
      DefaultsKnown(c, x, k + 1, rd);
    }
  }

  lemma TriKnown(c: Config, u: User, x: Sym, rd: Reads, mods: Option<Tri>)
    requires KnownAt(c, x, rd) && (Modules in c.defined ==> mods.Some?)
    ensures TriR(c, u, x, rd, mods).Some?
  {
    hide ExprR;
    hide PromptsR;
    hide DefaultsR;
    hide Mentions;
    PromptsKnown(c, x, |c.prompts(x)|, rd);
    DefaultsKnown(c, x, 0, rd);
    ExprKnown(c, c.weak(x), rd);
    ExprKnown(c, c.rev(x), rd);
    ExprKnown(c, c.direct(x), rd);
  }

  /** Once MODULES has a value, so has everything. */
  lemma {:induction false} AllEnd(c: Config, u: User, r: Sym -> nat, blind: bool, n: nat, x: Sym)
    requires Ranked(c, r) && x in c.defined
    requires Modules in c.defined ==> !blind && TriF(c, u, blind, n, Modules).Some?
    ensures TriF(c, u, blind, n + r(x) + 1, x).Some?
    decreases r(x)
  {
    hide TriR;
    hide Uses;
    var k := n + r(x);
    var rd := Pass(c, u, blind, k);
    forall s | Uses(c, x, s) && s in c.defined ensures rd(s).Some? {
      AllEnd(c, u, r, blind, n, s);
      MoreFuel(c, u, blind, blind, n + r(s) + 1, k, s);
    }
    MoreFuel(c, u, blind, blind, n, k, Modules);
    TriKnown(c, u, x, rd, if blind then None else TriF(c, u, blind, k, Modules));
  }

  /**
   The evaluation of a symbol ends if and only if it never asks whether modules are enabled, or the evaluation of
   MODULES never does.  Both can be found out beforehand: a blind evaluation needs no more calls than the rank says.
   */
  lemma EvaluationEndsIff(c: Config, u: User, r: Sym -> nat, x: Sym)
    requires Ranked(c, r) && x in c.defined
    ensures Ends(c, u, x) <==> Quiet(c, u, r, x) || (Modules in c.defined && Quiet(c, u, r, Modules))
  {
    hide TriF;
    if Modules !in c.defined {
      AllEnd(c, u, r, true, 0, x);
    }
    if Quiet(c, u, r, x) {
      MoreFuel(c, u, true, false, r(x) + 1, r(x) + 1, x);
    } else if Modules in c.defined && Quiet(c, u, r, Modules) {
      MoreFuel(c, u, true, false, r(Modules) + 1, r(Modules) + 1, Modules);
      AllEnd(c, u, r, false, r(Modules) + 1, x);
    } else if Ends(c, u, x) {
      forall k: nat ensures TriF(c, u, true, k, Modules).None? { RankSuffices(c, u, r, k, r(Modules) + 1, Modules); }
      var n: nat :| TriF(c, u, false, n, x).Some?;
      EndsBlind(c, u, n, x);
      RankSuffices(c, u, r, n, r(x) + 1, x);
    }
  }

  // ---------------------------------------------------------------------------
  // The value from scratch

  /** None if the evaluation does not end. */
  ghost function Val(c: Config, u: User, x: Sym): Option<Tri> {
    if Ends(c, u, x) then var n: nat :| TriF(c, u, false, n, x).Some?; TriF(c, u, false, n, x) else None
  }

  ghost function Vals(c: Config, u: User): Reads { (x: Sym) => Val(c, u, x) }

  /** Any bound that is large enough gives that value. */
  lemma FuelIsVal(c: Config, u: User, n: nat, x: Sym)
    ensures Refines(TriF(c, u, false, n, x), Val(c, u, x))
  {
    hide TriF;
    if TriF(c, u, false, n, x).Some? {
      var k: nat :| TriF(c, u, false, k, x).Some? && TriF(c, u, false, k, x) == Val(c, u, x);
      MoreFuel(c, u, false, false, n, n + k, x);
      MoreFuel(c, u, false, false, k, n + k, x);
    }
  }

  ghost function VisVal(c: Config, u: User, x: Sym): Option<Tri> { VisR(c, x, Vals(c, u), Val(c, u, Modules)) }

  // ---------------------------------------------------------------------------
  // Where evaluation is well founded, it ends with the value of the definition

  ghost predicate Right(c: Config, u: User, b: nat, rd: Reads)
    requires WF(c)
  {
    forall s | s in c.defined && c.m(s) < b :: rd(s) == Some(TriEv(c, u, s).v)
  }

  lemma {:induction false} ExprRight(c: Config, u: User, e: Expr, b: nat, x: Sym, rd: Reads)
    requires WF(c) && ExprOk(c, e, b, x) && Right(c, u, b, rd)
    ensures ExprR(c, e, rd) == Some(ExprEv(c, u, e, b, x).v)
  {
    hide TriEv;
    match e
    case Leaf(s) =>
    case And(l, r) => ExprRight(c, u, l, b, x, rd); ExprRight(c, u, r, b, x, rd);
    case Or(l, r) => ExprRight(c, u, l, b, x, rd); ExprRight(c, u, r, b, x, rd);
    case Not(y) => ExprRight(c, u, y, b, x, rd);
    case Rel(_, s, t) =>
  }

  lemma {:induction false} PromptsRight(c: Config, u: User, x: Sym, k: nat, rd: Reads)
    requires WF(c) && x in c.defined && k <= |c.prompts(x)| && Right(c, u, c.m(x), rd)
    ensures PromptsR(c, x, k, rd) == Some(PromptsEv(c, u, x, k).v)
  {
    hide ExprR;
    hide ExprEv;
    hide TriEv;
    if k > 0 {
      assert DefinitionOk(c, x);
      PromptsRight(c, u, x, k - 1, rd);
      ExprRight(c, u, c.prompts(x)[k - 1], c.m(x), x, rd);
    }
  }

  lemma {:induction false} DefaultsRight(c: Config, u: User, x: Sym, k: nat, rd: Reads)
    requires WF(c) && x in c.defined && k <= |c.defaults(x)| && Right(c, u, c.m(x), rd)
    ensures DefaultsR(c, x, k, rd) == Some(DefaultsEv(c, u, x, k).v)
    decreases |c.defaults(x)| - k
  {
    hide ExprR;
    hide ExprEv;
    hide TriEv;
    if k < |c.defaults(x)| {
      assert DefinitionOk(c, x);
      ExprRight(c, u, c.defaults(x)[k].0, c.m(x), x, rd);
      ExprRight(c, u, c.defaults(x)[k].1, c.m(x), x, rd);
      DefaultsRight(c, u, x, k + 1, rd);
    }
  }

  lemma VisRight(c: Config, u: User, x: Sym, rd: Reads, mods: Option<Tri>)
    requires WF(c) && x in c.defined && Right(c, u, c.m(x), rd)
    requires c.tristate(x) && Modules in c.defined ==> mods == Some(TriEv(c, u, Modules).v)
    ensures TypeR(c, x, mods) == Some(TypeEv(c, u, x).v) && VisR(c, x, rd, mods) == Some(VisEv(c, u, x).v)
  {
    hide PromptsR;
    hide PromptsEv;
    hide TriEv;
    PromptsRight(c, u, x, |c.prompts(x)|, rd);
  }

  lemma OwnRight(c: Config, u: User, x: Sym, rd: Reads, mods: Option<Tri>)
    requires WF(c) && x in c.defined && Right(c, u, c.m(x), rd)
    requires c.tristate(x) && Modules in c.defined ==> mods == Some(TriEv(c, u, Modules).v)
    ensures OwnR(c, u, x, rd, mods) == Some(OwnEv(c, u, x).v)
  {
    hide ExprR;
    hide ExprEv;
    hide DefaultsR;
    hide DefaultsEv;
    hide VisR;
    hide VisEv;
    hide TriEv;
    assert DefinitionOk(c, x);
    VisRight(c, u, x, rd, mods);
    DefaultsRight(c, u, x, 0, rd);
    ExprRight(c, u, c.weak(x), c.m(x), x, rd);
    ExprRight(c, u, c.direct(x), c.m(x), x, rd);
  }

  lemma SelectedRight(c: Config, u: User, x: Sym, rd: Reads, mods: Option<Tri>)
    requires WF(c) && x in c.defined && Right(c, u, c.m(x), rd)
    requires c.tristate(x) && Modules in c.defined ==> mods == Some(TriEv(c, u, Modules).v)
    ensures SelectedR(c, u, x, rd, mods) == Some(SelectedEv(c, u, x).v)
  {
    hide ExprR;
    hide ExprEv;
    hide OwnR;
    hide OwnEv;
    hide TriEv;
    assert DefinitionOk(c, x);
    OwnRight(c, u, x, rd, mods);
    ExprRight(c, u, c.rev(x), c.m(x), x, rd);
    ExprRight(c, u, c.direct(x), c.m(x), x, rd);
  }

  lemma TriRight(c: Config, u: User, x: Sym, rd: Reads, mods: Option<Tri>)
    requires WF(c) && x in c.defined && Right(c, u, c.m(x), rd)
    requires c.tristate(x) && Modules in c.defined ==> mods == Some(TriEv(c, u, Modules).v)
    ensures TriR(c, u, x, rd, mods) == Some(TriEv(c, u, x).v)
  {
    hide ExprR;
    hide ExprEv;
    hide SelectedR;
    hide SelectedEv;
    hide TypeR;
    hide TypeEv;
    assert DefinitionOk(c, x);
    VisRight(c, u, x, rd, mods);
    SelectedRight(c, u, x, rd, mods);
    ExprRight(c, u, c.weak(x), c.m(x), x, rd);
  }

  /** In particular after a scan without a loop, if MODULES needs no tristate symbol. */
  lemma {:induction false} FoundedEnds(c: Config, u: User, n: nat, x: Sym)
    requires WF(c) && x in c.defined && n > c.m(x)
    ensures TriF(c, u, false, n, x) == Some(TriEv(c, u, x).v) && Ends(c, u, x)
    decreases n
  {
    hide TriR;
    hide TriEv;
    var rd := Pass(c, u, false, n - 1);
    forall s | s in c.defined && c.m(s) < c.m(x) ensures rd(s) == Some(TriEv(c, u, s).v) { FoundedEnds(c, u, n - 1, s); }
    assert DefinitionOk(c, x);
    if c.tristate(x) && Modules in c.defined { FoundedEnds(c, u, n - 1, Modules); }
    TriRight(c, u, x, rd, TriF(c, u, false, n - 1, Modules));
  }

  lemma FoundedVal(c: Config, u: User, x: Sym)
    requires WF(c) && x in c.defined
    ensures Val(c, u, x) == Some(TriEv(c, u, x).v) && VisVal(c, u, x) == Some(VisEv(c, u, x).v)
  {
    hide TriF;
    hide TriEv;
    hide VisEv;
    hide VisR;
    forall y | y in c.defined ensures Val(c, u, y) == Some(TriEv(c, u, y).v) {
      FoundedEnds(c, u, c.m(y) + 1, y);
      FuelIsVal(c, u, c.m(y) + 1, y);
    }
    VisRight(c, u, x, Vals(c, u), Val(c, u, Modules));
  }

  // ---------------------------------------------------------------------------
  // A configuration whose scan passes and whose evaluation never ends

  const FOO: Sym := Other(0)

  /** MODULES has `default FOO`, and FOO is a tristate symbol with the given default and no prompt. */
  function TwoSymbols(value: Sym): Config {
    Config({Modules, FOO}, s => s == N || s == M || s == Y, x => x == FOO, x => [],
           x => if x == Modules then [(Leaf(FOO), Leaf(Y))] else [(Leaf(value), Leaf(Y))],
           x => Leaf(N), x => Leaf(N), x => Leaf(Y), s => if s == FOO then [Modules] else [],
           s => if s == Y then 2 else if s == M then 1 else 0, (s, t, v, w) => v - w, x => 0)
  }

  function TwoRanks(x: Sym): nat { if x == Modules then 1 else 0 }

  /** One call of tri_value for each of them. */
  lemma TwoCalls(value: Sym, u: User, rd: Reads, mods: Option<Tri>)
    requires value == M || value == Y
    ensures TriR(TwoSymbols(value), u, FOO, rd, mods) ==
            if value == Y then Some(2) else if mods.None? then None else Some(if mods.value == 0 then 2 else 1)
    ensures TriR(TwoSymbols(value), u, Modules, rd, mods) ==
            if rd(FOO).None? then None else Some(if rd(FOO).value == 1 then 2 else rd(FOO).value)
  {
    var c := TwoSymbols(value);
    assert ExprR(c, Leaf(N), rd) == Some(0) && ExprR(c, Leaf(Y), rd) == Some(2);
    assert DefaultsR(c, FOO, 0, rd) == Some(c.fixed(value)) && SelectedR(c, u, FOO, rd, mods) == Some(c.fixed(value));
    assert ExprR(c, Leaf(FOO), rd) == rd(FOO);
    assert SelectedR(c, u, Modules, rd, mods) == rd(FOO);
  }

  /** The scan passes whatever the default, so by itself it does not make evaluation end. */
  lemma TwoSymbolsPass(value: Sym, loop: seq<Sym>)
    requires value == M || value == Y
    ensures Built(TwoSymbols(value)) && Ranked(TwoSymbols(value), TwoRanks) && !IsCycle(TwoSymbols(value).deps, loop)
    ensures !ModulesApart(TwoSymbols(value).deps, TwoSymbols(value).tristate, Modules, TwoSymbols(value).defined)
  {
    hide Uses;
    var c := TwoSymbols(value);
    forall x, s ensures Uses(c, x, s) <==> (if x == Modules then s == FOO else s == value) || s == N || s == Y {
      TwoUses(value, x, s);
    }
    assert PathTo(c.deps, [FOO, Modules], FOO, Modules);
    var n := |loop|;
    assert n > 1 && loop[n - 1] in c.deps(loop[0]) ==> loop[n - 2] !in c.deps(loop[n - 2 + 1]);
  }

  lemma TwoUses(value: Sym, x: Sym, s: Sym)
    ensures Uses(TwoSymbols(value), x, s) <==> (if x == Modules then s == FOO else s == value) || s == N || s == Y
  {
    var c := TwoSymbols(value);
    assert InDefaults(c, x, 1, s) <==> Mentions(c.defaults(x)[0].0, s) || Mentions(c.defaults(x)[0].1, s);
  }

  /** With `default m` the two symbols read each other for ever: no bound is large enough. */
  lemma {:induction false} PassingScanMayLoop(u: User, n: nat, x: Sym)
    requires x == Modules || x == FOO
    ensures TriF(TwoSymbols(M), u, false, n, x) == None
  {
    hide TriR;
    hide TwoSymbols;
    if n > 0 {
      PassingScanMayLoop(u, n - 1, FOO);
      PassingScanMayLoop(u, n - 1, Modules);
      TwoCalls(M, u, Pass(TwoSymbols(M), u, false, n - 1), None);
    }
  }

  /** With `default y` MODULES still needs a tristate symbol, but nobody asks and evaluation ends. */
  lemma PassingScanMayEnd(u: User, x: Sym)
    requires x == Modules || x == FOO
    ensures TriF(TwoSymbols(Y), u, false, 2, x) == Some(2) && Ends(TwoSymbols(Y), u, x)
  {
    hide TriR;
    hide TwoSymbols;
    var c := TwoSymbols(Y);
    TwoCalls(Y, u, Pass(c, u, false, 0), TriF(c, u, false, 0, Modules));
    TwoCalls(Y, u, Pass(c, u, false, 1), TriF(c, u, false, 1, Modules));
    assert TriF(c, u, false, 1, FOO) == Some(2);
  }
}
