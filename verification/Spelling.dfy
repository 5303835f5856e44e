/** Names and their declarations: resolution, substitution of type arguments,
    and the spelling of one package's types in another. */
module Spelling {
  import opened Ast

  type Subst = map<string, TypeRef>

  /** The declaration n asks for as package home spells it: a bare name's in
      home, `pkg.Name`'s in pkg. A type parameter asks for none. */
  function RefKey(home: string, n: NamedRef): Option<Key> {
    if n.param then None
    else if |n.parts| == 1 then Some(Key(home, n.parts[0]))
    else if |n.parts| == 2 then Some(Key(n.parts[0], n.parts[1]))
    else None
  }

  /** The type n names as package home spells it. */
  function Target(p: Project, home: string, n: NamedRef): Option<Key> {
    var k := RefKey(home, n);
    if k.Some? && k.value in p.types then k else None
  }

  /** Whether a type reference may name the declaration: a type, enum or scalar. */
  predicate Declared(p: Project, k: Key) { k in p.types || k in p.values }

  /** Pairs type parameters with arguments; parameters beyond them stay unmapped. */
  function SubstMap(params: seq<string>, args: seq<TypeRef>): Subst {
    if params == [] then map[]
    else
      var last := |params| - 1;
      var s := SubstMap(params[..last], args);
      if last < |args| then s[params[last] := args[last]] else s
  }

  lemma {:induction false} SubstMapFrom(params: seq<string>, args: seq<TypeRef>, q: string) returns (i: nat)
    requires q in SubstMap(params, args)
    ensures i < |params| && i < |args| && params[i] == q && SubstMap(params, args)[q] == args[i]
  {
    var last := |params| - 1;
    if last < |args| && params[last] == q { i := last; } else { i := SubstMapFrom(params[..last], args, q); }
  }

  lemma {:induction false} SubstMapHolds(params: seq<string>, args: seq<TypeRef>, i: nat)
    requires i < |params| && i < |args|
    ensures params[i] in SubstMap(params, args)
  {
    if i < |params| - 1 { SubstMapHolds(params[..|params| - 1], args, i); }
  }

  predicate Distinct(params: seq<string>) {
    forall i, j :: 0 <= i < j < |params| ==> params[i] != params[j]
  }

  lemma {:induction false} SubstMapAt(params: seq<string>, args: seq<TypeRef>, i: nat)
    requires Distinct(params) && i < |params| && i < |args|
    ensures params[i] in SubstMap(params, args) && SubstMap(params, args)[params[i]] == args[i]
  {
    var last := |params| - 1;
    if i < last { SubstMapAt(params[..last], args, i); }
  }

  /** The argument with the suffixes of the parameter reference added. */
  function Suffixed(rep: TypeRef, dims: nat, optional: bool): TypeRef {
    rep.(dims := rep.dims + dims, optional := rep.optional || optional)
  }

  predicate Bound(n: NamedRef, s: Subst) { |n.parts| == 1 && n.parts[0] in s }

  /** t with the bindings of s put in. */
  function Substitute(t: TypeRef, s: Subst): TypeRef {
    match t
    case MapOf(k, v, a, o) => MapOf(Substitute(k, s), Substitute(v, s), a, o)
    case Named(n, a, o) =>
      if Bound(n, s) then Suffixed(s[n.parts[0]], a, o)
      else Named(n.(args := seq(|n.args|, i requires 0 <= i < |n.args| => Substitute(n.args[i], s))), a, o)
  }

  /** A bare name home declares, as another package spells it. */
  function QualifiedParts(p: Project, n: NamedRef, home: string, params: seq<string>): seq<string> {
    if |n.parts| == 1 && n.parts[0] !in params && Declared(p, Key(home, n.parts[0]))
    then [home, n.parts[0]] else n.parts
  }

  /** t of package home, its names respelled for package view; those of params
      are left alone. */
  function Requalify(p: Project, t: TypeRef, home: string, view: string, params: seq<string>): TypeRef {
    if home == view then t else
      match t
      case MapOf(k, v, a, o) =>
        MapOf(Requalify(p, k, home, view, params), Requalify(p, v, home, view, params), a, o)
      case Named(n, a, o) =>
        Named(NamedRef(QualifiedParts(p, n, home, params), n.param,
                       seq(|n.args|, i requires 0 <= i < |n.args| => Requalify(p, n.args[i], home, view, params))),
              a, o)
  }

  /** Where a type stands: its package, the package spelling it, the type
      parameters in scope and what binds them. */
  datatype Scope = Scope(home: string, view: string, params: seq<string>, subst: Subst)

  function Spell(p: Project, t: TypeRef, c: Scope): TypeRef {
    Substitute(Requalify(p, t, c.home, c.view, c.params), c.subst)
  }

  /** The scope of the body of k, instantiated with args, for package view. */
  function BodyScope(p: Project, k: Key, args: seq<TypeRef>, view: string): Scope
    requires k in p.types
  {
    Scope(k.pkg, view, p.types[k].params, SubstMap(p.types[k].params, args))
  }

  /** How Spell re-spells a named type that is no bound parameter. */
  function SpellRef(p: Project, n: NamedRef, c: Scope): NamedRef {
    NamedRef(if c.home == c.view then n.parts else QualifiedParts(p, n, c.home, c.params), n.param,
             seq(|n.args|, i requires 0 <= i < |n.args| => Spell(p, n.args[i], c)))
  }

  /** The bindings of a scope are of its own parameters. */
  predicate OwnSubst(c: Scope) { forall q :: q in c.subst ==> q in c.params }

  lemma SpellNamed(p: Project, n: NamedRef, a: nat, o: bool, c: Scope)
    requires OwnSubst(c)
    ensures Spell(p, Named(n, a, o), c)
         == if Bound(n, c.subst) then Suffixed(c.subst[n.parts[0]], a, o) else Named(SpellRef(p, n, c), a, o)
  {
    if c.home == c.view {
      if !Bound(n, c.subst) {
        assert Spell(p, Named(n, a, o), c).ref.args == SpellRef(p, n, c).args;
      }
    } else {
      var n' := Requalify(p, Named(n, a, o), c.home, c.view, c.params).ref;
      if Bound(n, c.subst) {
        assert n'.parts == n.parts;
      } else {
        assert !Bound(n', c.subst);
        assert Spell(p, Named(n, a, o), c).ref.args == SpellRef(p, n, c).args;
      }
    }
  }

  lemma SpellMap(p: Project, k: TypeRef, v: TypeRef, a: nat, o: bool, c: Scope)
    ensures Spell(p, MapOf(k, v, a, o), c) == MapOf(Spell(p, k, c), Spell(p, v, c), a, o)
  {
  }

  /** A named type of a spelled type is a respelled one of the original, or
      one of an argument bound to a parameter the original mentions. */
  lemma {:induction false} RefsOfSpelled(p: Project, t: TypeRef, c: Scope, m: NamedRef) returns (n: NamedRef)
    requires OwnSubst(c) && m in NamedRefs(Spell(p, t, c))
    ensures n in NamedRefs(t)
    ensures if Bound(n, c.subst) then m in NamedRefs(c.subst[n.parts[0]]) else m == SpellRef(p, n, c)
    decreases t
  {
    match t
    case MapOf(k, v, a, o) =>
      SpellMap(p, k, v, a, o, c);
      if m in NamedRefs(Spell(p, k, c)) { n := RefsOfSpelled(p, k, c, m); } else { n := RefsOfSpelled(p, v, c, m); }
    case Named(h, a, o) =>
      SpellNamed(p, h, a, o, c);
      n := h;
      if !Bound(h, c.subst) && m != SpellRef(p, h, c) {
        var i := ArgRefsFrom(SpellRef(p, h, c).args, m);
        n := RefsOfSpelled(p, h.args[i], c, m);
        ArgRefsHold(h.args, i, n);
      }
  }

  /** Spelling deepens a type by no more than the deepest argument it takes. */
  lemma {:induction false} SpelledDepth(p: Project, t: TypeRef, c: Scope, d: nat)
    requires OwnSubst(c)
    requires forall q :: q in c.subst && Mentions(t, q) ==> Depth(c.subst[q]) <= d
    ensures Depth(Spell(p, t, c)) <= Depth(t) + d
    decreases t
  {
    match t
    case MapOf(k, v, a, o) =>
      SpellMap(p, k, v, a, o, c);
      SpelledDepth(p, k, c, d);
      SpelledDepth(p, v, c, d);
    case Named(n, a, o) =>
      SpellNamed(p, n, a, o, c);
      assert n in NamedRefs(t);
      if Bound(n, c.subst) {
        assert n.parts == [n.parts[0]];
      } else {
        var args := SpellRef(p, n, c).args;
        forall i | 0 <= i < |args| ensures Depth(args[i]) < ArgsDepth(n.args) + d {
          forall m | m in NamedRefs(n.args[i]) ensures m in NamedRefs(t) { NestedRefs(t, n, m, i); }
          SpelledDepth(p, n.args[i], c, d);
          ArgShallower(n.args, i);
        }
        ArgsWithin(args, ArgsDepth(n.args) + d);
      }
  }
}
