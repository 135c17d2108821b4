/**
 What the value of a bool or tristate Kconfig symbol is, computed from scratch, and which symbols that
 computation reads (scripts/kconfig/kconfiglib.py, configurations without choices).
 */
module KconfigEval {
  import opened KconfigExpr
  import opened Options

  /** The properties of the defined symbols after parsing. */
  datatype Config = Config(
    defined: set<Sym>,
    constant: Sym -> bool,                    // is_constant: n, m, y and quoted symbols
    tristate: Sym -> bool,                    // orig_type is TRISTATE, otherwise BOOL
    prompts: Sym -> seq<Expr>,                // the condition of each prompt
    defaults: Sym -> seq<(Expr, Expr)>,       // value and condition of each default
    rev: Sym -> Expr,                         // rev_dep
    weak: Sym -> Expr,                        // weak_rev_dep
    direct: Sym -> Expr,                      // direct_dep
    deps: Sym -> seq<Sym>,                    // _dependents
    fixed: Sym -> Tri,                        // the value of constant and undefined symbols
    comp: (Sym, Sym, Tri, Tri) -> int,        // how two symbols with these values compare
    m: Sym -> nat)                            // a measure that every read lowers

  type User = Sym -> Option<Tri>

  /** A value, and the defined symbols whose values were read to get it. */
  datatype Ev = Ev(v: Tri, seen: set<Sym>)

  // ---------------------------------------------------------------------------
  // Well-formed configurations

  /** Every defined symbol in e is below b, and has x among its dependents. */
  ghost predicate ExprOk(c: Config, e: Expr, b: nat, x: Sym) {
    match e
    case Leaf(s) => SymOk(c, s, b, x)
    case And(l, r) => ExprOk(c, l, b, x) && ExprOk(c, r, b, x)
    case Or(l, r) => ExprOk(c, l, b, x) && ExprOk(c, r, b, x)
    case Not(y) => ExprOk(c, y, b, x)
    case Rel(_, s, t) => SymOk(c, s, b, x) && SymOk(c, t, b, x)
  }

  ghost predicate SymOk(c: Config, s: Sym, b: nat, x: Sym) {
    s in c.defined ==> c.m(s) < b && x in c.deps(s)
  }

  ghost predicate DefinitionOk(c: Config, x: Sym) {
    var b := c.m(x);
    && (forall k | 0 <= k < |c.prompts(x)| :: ExprOk(c, c.prompts(x)[k], b, x))
    && (forall k | 0 <= k < |c.defaults(x)| :: ExprOk(c, c.defaults(x)[k].0, b, x) && ExprOk(c, c.defaults(x)[k].1, b, x))
    && ExprOk(c, c.rev(x), b, x) && ExprOk(c, c.weak(x), b, x) && ExprOk(c, c.direct(x), b, x)
    && (c.tristate(x) && Modules in c.defined ==> c.m(Modules) < b)
    && (forall d | d in c.deps(x) :: d in c.defined)
  }

  /** The dependents are complete (_build_dep) and evaluation is well founded. */
  ghost predicate WF(c: Config) {
    forall x | x in c.defined :: DefinitionOk(c, x)
  }

  // ---------------------------------------------------------------------------
  // Values from scratch

  ghost function SymEv(c: Config, u: User, s: Sym, b: nat, x: Sym): Ev
    requires WF(c) && SymOk(c, s, b, x)
    decreases b, 0
  {
    if s in c.defined then Ev(TriEv(c, u, s).v, {s}) else Ev(c.fixed(s), {})
  }

  /** expr_value, with its short circuits */
  ghost function ExprEv(c: Config, u: User, e: Expr, b: nat, x: Sym): Ev
    requires WF(c) && ExprOk(c, e, b, x)
    decreases b, 1, e
  {
    match e
    case Leaf(s) => SymEv(c, u, s, b, x)
    case And(l, r) =>
      var a := ExprEv(c, u, l, b, x);
      if a.v == 0 then a else var d := ExprEv(c, u, r, b, x); Ev(Min(a.v, d.v), a.seen + d.seen)
    case Or(l, r) =>
      var a := ExprEv(c, u, l, b, x);
      if a.v == 2 then a else var d := ExprEv(c, u, r, b, x); Ev(Max(a.v, d.v), a.seen + d.seen)
    case Not(y) => var a := ExprEv(c, u, y, b, x); Ev(2 - a.v, a.seen)
    case Rel(op, s, t) =>
      var p, q := SymEv(c, u, s, b, x), SymEv(c, u, t, b, x);
      Ev(if Holds(op, c.comp(s, t, p.v, q.v)) then 2 else 0, p.seen + q.seen)
  }

  /** Symbol.type is TRISTATE: reads MODULES if the symbol was declared tristate. */
  ghost function TypeEv(c: Config, u: User, x: Sym): Ev
    requires WF(c) && x in c.defined
    decreases c.m(x), 2
  {
    if !c.tristate(x) then Ev(0, {})
    else if Modules in c.defined then assert DefinitionOk(c, x); Ev(if TriEv(c, u, Modules).v != 0 then 2 else 0, {Modules})
    else Ev(if c.fixed(Modules) != 0 then 2 else 0, {})
  }

  /** The largest of the first k prompt conditions. */
  ghost function PromptsEv(c: Config, u: User, x: Sym, k: nat): Ev
    requires WF(c) && x in c.defined && k <= |c.prompts(x)|
    decreases c.m(x), 2, k
  {
    if k == 0 then Ev(0, {})
    else
      assert DefinitionOk(c, x);
      var a, d := PromptsEv(c, u, x, k - 1), ExprEv(c, u, c.prompts(x)[k - 1], c.m(x), x);
      Ev(Max(a.v, d.v), a.seen + d.seen)
  }

  /** _visibility */
  ghost function VisEv(c: Config, u: User, x: Sym): Ev
    requires WF(c) && x in c.defined
    decreases c.m(x), 3
  {
    var p := PromptsEv(c, u, x, |c.prompts(x)|);
    if p.v != 1 then p
    else var t := TypeEv(c, u, x); Ev(if t.v == 0 then 2 else 1, p.seen + t.seen)
  }

  /** The first default from number k on whose condition is met. */
  ghost function DefaultsEv(c: Config, u: User, x: Sym, k: nat): Ev
    requires WF(c) && x in c.defined && k <= |c.defaults(x)|
    decreases c.m(x), 3, |c.defaults(x)| - k
  {
    if k == |c.defaults(x)| then Ev(0, {})
    else
      assert DefinitionOk(c, x);
      var cond := ExprEv(c, u, c.defaults(x)[k].1, c.m(x), x);
      if cond.v != 0 then
        var d := ExprEv(c, u, c.defaults(x)[k].0, c.m(x), x); Ev(Min(d.v, cond.v), cond.seen + d.seen)
      else
        var rest := DefaultsEv(c, u, x, k + 1); Ev(rest.v, cond.seen + rest.seen)
  }

  /** The default, raised by an imply whose direct dependencies are met. */
  ghost function ImpliedEv(c: Config, u: User, x: Sym): Ev
    requires WF(c) && x in c.defined
    decreases c.m(x), 4
  {
    assert DefinitionOk(c, x);
    var d, w := DefaultsEv(c, u, x, 0), ExprEv(c, u, c.weak(x), c.m(x), x);
    if w.v == 0 then Ev(d.v, d.seen + w.seen)
    else
      var dir := ExprEv(c, u, c.direct(x), c.m(x), x);
      Ev(if dir.v != 0 then Max(w.v, d.v) else d.v, d.seen + w.seen + dir.seen)
  }

  /** The value before reverse dependencies: the user's, or that. */
  ghost function OwnEv(c: Config, u: User, x: Sym): Ev
    requires WF(c) && x in c.defined
    decreases c.m(x), 5
  {
    var vis := VisEv(c, u, x);
    if vis.v != 0 && u(x).Some? then Ev(Min(u(x).value, vis.v), vis.seen)
    else var d := ImpliedEv(c, u, x); Ev(d.v, vis.seen + d.seen)
  }

  /** ... raised by a select. */
  ghost function SelectedEv(c: Config, u: User, x: Sym): Ev
    requires WF(c) && x in c.defined
    decreases c.m(x), 6
  {
    assert DefinitionOk(c, x);
    var a, r := OwnEv(c, u, x), ExprEv(c, u, c.rev(x), c.m(x), x);
    if r.v == 0 then Ev(a.v, a.seen + r.seen)
    else
      var dir := ExprEv(c, u, c.direct(x), c.m(x), x);
      Ev(Max(r.v, a.v), a.seen + r.seen + dir.seen)
  }

  /** tri_value: m becomes y for a bool, and for a symbol implied by y. */
  ghost function TriEv(c: Config, u: User, x: Sym): Ev
    requires WF(c) && x in c.defined
    decreases c.m(x), 7
  {
    assert DefinitionOk(c, x);
    var a := SelectedEv(c, u, x);
    if a.v != 1 then a
    else
      var t := TypeEv(c, u, x);
      if t.v == 0 then Ev(2, a.seen + t.seen)
      else
        var w := ExprEv(c, u, c.weak(x), c.m(x), x);
        Ev(if w.v == 2 then 2 else 1, a.seen + t.seen + w.seen)
  }

  // ---------------------------------------------------------------------------
  // Whatever is read is recorded as a dependency, or is MODULES

  ghost predicate Recorded(c: Config, x: Sym, seen: set<Sym>) {
    forall y | y in seen :: y in c.defined && (x in c.deps(y) || y == Modules)
  }

  lemma {:induction false} ExprRecorded(c: Config, u: User, e: Expr, b: nat, x: Sym)
    requires WF(c) && ExprOk(c, e, b, x)
    ensures Recorded(c, x, ExprEv(c, u, e, b, x).seen)
    decreases e
  {
    hide TriEv;
    match e
    case Leaf(s) =>
    case And(l, r) => ExprRecorded(c, u, l, b, x); ExprRecorded(c, u, r, b, x);
    case Or(l, r) => ExprRecorded(c, u, l, b, x); ExprRecorded(c, u, r, b, x);
    case Not(y) => ExprRecorded(c, u, y, b, x);
    case Rel(_, s, t) =>
  }

  lemma {:induction false} PromptsRecorded(c: Config, u: User, x: Sym, k: nat)
    requires WF(c) && x in c.defined && k <= |c.prompts(x)|
    ensures Recorded(c, x, PromptsEv(c, u, x, k).seen)
  {
    hide ExprEv;
    if k > 0 {
      assert DefinitionOk(c, x);
      PromptsRecorded(c, u, x, k - 1);
      ExprRecorded(c, u, c.prompts(x)[k - 1], c.m(x), x);
    }
  }

  lemma {:induction false} DefaultsRecorded(c: Config, u: User, x: Sym, k: nat)
    requires WF(c) && x in c.defined && k <= |c.defaults(x)|
    ensures Recorded(c, x, DefaultsEv(c, u, x, k).seen)
    decreases |c.defaults(x)| - k
  {
    hide ExprEv;
    if k < |c.defaults(x)| {
      assert DefinitionOk(c, x);
      DefaultsRecorded(c, u, x, k + 1);
      ExprRecorded(c, u, c.defaults(x)[k].1, c.m(x), x);
      ExprRecorded(c, u, c.defaults(x)[k].0, c.m(x), x);
    }
  }

  lemma VisRecorded(c: Config, u: User, x: Sym)
    requires WF(c) && x in c.defined
    ensures Recorded(c, x, VisEv(c, u, x).seen) && Recorded(c, x, TypeEv(c, u, x).seen)
  {
    hide PromptsEv;
    hide TriEv;
    PromptsRecorded(c, u, x, |c.prompts(x)|);
  }

  lemma OwnRecorded(c: Config, u: User, x: Sym)
    requires WF(c) && x in c.defined
    ensures Recorded(c, x, OwnEv(c, u, x).seen) && VisEv(c, u, x).seen <= OwnEv(c, u, x).seen
  {
    hide ImpliedEv;
    hide VisEv;
    VisRecorded(c, u, x);
    ImpliedRecorded(c, u, x);
  }

  lemma ImpliedRecorded(c: Config, u: User, x: Sym)
    requires WF(c) && x in c.defined
    ensures Recorded(c, x, ImpliedEv(c, u, x).seen)
  {
    hide ExprEv;
    hide DefaultsEv;
    assert DefinitionOk(c, x);
    DefaultsRecorded(c, u, x, 0);
    ExprRecorded(c, u, c.weak(x), c.m(x), x);
    ExprRecorded(c, u, c.direct(x), c.m(x), x);
  }

  lemma SelectedRecorded(c: Config, u: User, x: Sym)
    requires WF(c) && x in c.defined
    ensures Recorded(c, x, SelectedEv(c, u, x).seen) && VisEv(c, u, x).seen <= SelectedEv(c, u, x).seen
  {
    hide ExprEv;
    hide OwnEv;
    hide VisEv;
    assert DefinitionOk(c, x);
    OwnRecorded(c, u, x);
    ExprRecorded(c, u, c.rev(x), c.m(x), x);
    ExprRecorded(c, u, c.direct(x), c.m(x), x);
  }

  lemma TriRecorded(c: Config, u: User, x: Sym)
    requires WF(c) && x in c.defined
    ensures Recorded(c, x, TriEv(c, u, x).seen) && VisEv(c, u, x).seen <= TriEv(c, u, x).seen
  {
    hide ExprEv;
    hide SelectedEv;
    hide VisEv;
    hide TypeEv;
    assert DefinitionOk(c, x);
    VisRecorded(c, u, x);
    SelectedRecorded(c, u, x);
    ExprRecorded(c, u, c.weak(x), c.m(x), x);
  }

  // ---------------------------------------------------------------------------
  // A value only depends on what was read

  /** The user value is the same, or cannot matter because the symbol has no prompt. */
  ghost predicate SameUser(c: Config, u: User, u': User, x: Sym) { u'(x) == u(x) || c.prompts(x) == [] }

  /** Symbols whose user value is the same, and which only read each other. */
  ghost predicate Settled(c: Config, u: User, u': User, s: set<Sym>)
    requires WF(c) && s <= c.defined
  {
    forall x | x in s :: SameUser(c, u, u', x) && TriEv(c, u, x).seen <= s
  }

  lemma {:induction false} ExprStable(c: Config, u: User, u': User, s: set<Sym>, e: Expr, b: nat, x: Sym)
    requires WF(c) && s <= c.defined && Settled(c, u, u', s) && ExprOk(c, e, b, x) && ExprEv(c, u, e, b, x).seen <= s
    ensures ExprEv(c, u', e, b, x) == ExprEv(c, u, e, b, x)
    decreases b, 1, e
  {
    hide TriEv;
    match e
    case Leaf(y) => if y in c.defined { TriStable(c, u, u', s, y); }
    case And(l, r) =>
      ExprStable(c, u, u', s, l, b, x);
      if ExprEv(c, u, l, b, x).v != 0 { ExprStable(c, u, u', s, r, b, x); }
    case Or(l, r) =>
      ExprStable(c, u, u', s, l, b, x);
      if ExprEv(c, u, l, b, x).v != 2 { ExprStable(c, u, u', s, r, b, x); }
    case Not(y) => ExprStable(c, u, u', s, y, b, x);
    case Rel(_, y, z) =>
      if y in c.defined { TriStable(c, u, u', s, y); }
      if z in c.defined { TriStable(c, u, u', s, z); }
  }

  lemma {:induction false} PromptsStable(c: Config, u: User, u': User, s: set<Sym>, x: Sym, k: nat)
    requires WF(c) && s <= c.defined && Settled(c, u, u', s) && x in c.defined && k <= |c.prompts(x)|
    requires PromptsEv(c, u, x, k).seen <= s
    ensures PromptsEv(c, u', x, k) == PromptsEv(c, u, x, k)
    decreases c.m(x), 2, k
  {
    hide ExprEv;
    if k > 0 {
      assert DefinitionOk(c, x);
      PromptsStable(c, u, u', s, x, k - 1);
      ExprStable(c, u, u', s, c.prompts(x)[k - 1], c.m(x), x);
    }
  }

  lemma {:induction false} DefaultsStable(c: Config, u: User, u': User, s: set<Sym>, x: Sym, k: nat)
    requires WF(c) && s <= c.defined && Settled(c, u, u', s) && x in c.defined && k <= |c.defaults(x)|
    requires DefaultsEv(c, u, x, k).seen <= s
    ensures DefaultsEv(c, u', x, k) == DefaultsEv(c, u, x, k)
    decreases c.m(x), 3, |c.defaults(x)| - k
  {
    hide ExprEv;
    if k < |c.defaults(x)| {
      assert DefinitionOk(c, x);
      ExprStable(c, u, u', s, c.defaults(x)[k].1, c.m(x), x);
      if ExprEv(c, u, c.defaults(x)[k].1, c.m(x), x).v != 0 {
        ExprStable(c, u, u', s, c.defaults(x)[k].0, c.m(x), x);
      } else {
        DefaultsStable(c, u, u', s, x, k + 1);
      }
    }
  }

  lemma {:induction false} TypeStable(c: Config, u: User, u': User, s: set<Sym>, x: Sym)
    requires WF(c) && s <= c.defined && Settled(c, u, u', s) && x in c.defined && TypeEv(c, u, x).seen <= s
    ensures TypeEv(c, u', x) == TypeEv(c, u, x)
    decreases c.m(x), 2
  {
    hide TriEv;
    assert DefinitionOk(c, x);
    if c.tristate(x) && Modules in c.defined { TriStable(c, u, u', s, Modules); }
  }

  lemma {:induction false} VisStable(c: Config, u: User, u': User, s: set<Sym>, x: Sym)
    requires WF(c) && s <= c.defined && Settled(c, u, u', s) && x in c.defined && VisEv(c, u, x).seen <= s
    ensures VisEv(c, u', x) == VisEv(c, u, x)
    decreases c.m(x), 3
  {
    hide PromptsEv;
    hide TypeEv;
    PromptsStable(c, u, u', s, x, |c.prompts(x)|);
    if PromptsEv(c, u, x, |c.prompts(x)|).v == 1 { TypeStable(c, u, u', s, x); }
  }

  /** A symbol without a prompt is never visible. */
  lemma Promptless(c: Config, u: User, x: Sym)
    requires WF(c) && x in c.defined && c.prompts(x) == []
    ensures VisEv(c, u, x).v == 0
  {
    assert PromptsEv(c, u, x, 0) == Ev(0, {});
  }

  lemma {:induction false} ImpliedStable(c: Config, u: User, u': User, s: set<Sym>, x: Sym)
    requires WF(c) && s <= c.defined && Settled(c, u, u', s) && x in c.defined && ImpliedEv(c, u, x).seen <= s
    ensures ImpliedEv(c, u', x) == ImpliedEv(c, u, x)
    decreases c.m(x), 4
  {
    hide ExprEv;
    hide DefaultsEv;
    assert DefinitionOk(c, x);
    DefaultsStable(c, u, u', s, x, 0);
    ExprStable(c, u, u', s, c.weak(x), c.m(x), x);
    if ExprEv(c, u, c.weak(x), c.m(x), x).v != 0 { ExprStable(c, u, u', s, c.direct(x), c.m(x), x); }
  }

  lemma {:induction false} OwnStable(c: Config, u: User, u': User, s: set<Sym>, x: Sym)
    requires WF(c) && s <= c.defined && Settled(c, u, u', s) && x in c.defined
    requires OwnEv(c, u, x).seen <= s && SameUser(c, u, u', x)
    ensures OwnEv(c, u', x) == OwnEv(c, u, x)
    decreases c.m(x), 5
  {
    hide ImpliedEv;
    hide VisEv;
    VisStable(c, u, u', s, x);
    if c.prompts(x) == [] { Promptless(c, u, x); }
    if VisEv(c, u, x).v == 0 || u(x).None? { ImpliedStable(c, u, u', s, x); }
  }

  lemma {:induction false} SelectedStable(c: Config, u: User, u': User, s: set<Sym>, x: Sym)
    requires WF(c) && s <= c.defined && Settled(c, u, u', s) && x in c.defined
    requires SelectedEv(c, u, x).seen <= s && SameUser(c, u, u', x)
    ensures SelectedEv(c, u', x) == SelectedEv(c, u, x)
    decreases c.m(x), 6
  {
    hide ExprEv;
    hide OwnEv;
    assert DefinitionOk(c, x);
    OwnStable(c, u, u', s, x);
    ExprStable(c, u, u', s, c.rev(x), c.m(x), x);
    if ExprEv(c, u, c.rev(x), c.m(x), x).v != 0 { ExprStable(c, u, u', s, c.direct(x), c.m(x), x); }
  }

  /** The value of a settled symbol is the same under both assignments, and so is what it reads. */
  lemma {:induction false} TriStable(c: Config, u: User, u': User, s: set<Sym>, x: Sym)
    requires WF(c) && s <= c.defined && Settled(c, u, u', s) && x in s
    ensures TriEv(c, u', x) == TriEv(c, u, x)
    decreases c.m(x), 7
  {
    hide ExprEv;
    hide SelectedEv;
    hide TypeEv;
    assert DefinitionOk(c, x);
    SelectedStable(c, u, u', s, x);
    if SelectedEv(c, u, x).v == 1 {
      TypeStable(c, u, u', s, x);
      if TypeEv(c, u, x).v != 0 { ExprStable(c, u, u', s, c.weak(x), c.m(x), x); }
    }
  }
}
