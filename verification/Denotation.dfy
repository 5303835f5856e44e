/** What a type reference means, and that respelling and substitution keep it. */
module Denotation {
  import opened Ast
  import opened Spelling

  /** A type with every name resolved: a declaration, a type parameter, a
      built-in or unknown name, or a map. */
  datatype Den =
    | OfDecl(key: Key, args: seq<Den>, dims: nat, optional: bool)
    | OfParam(param: string, dims: nat, optional: bool)
    | OfOther(parts: seq<string>, args: seq<Den>, dims: nat, optional: bool)
    | OfMap(k: Den, v: Den, dims: nat, optional: bool)

  /** A type, an enum or a scalar. */
  predicate IsDecl(p: Project, k: Key) { k in p.types || k in p.values }

  /** What t denotes as package home spells it. */
  function Denote(p: Project, home: string, t: TypeRef): Den {
    match t
    case MapOf(k, v, a, o) => OfMap(Denote(p, home, k), Denote(p, home, v), a, o)
    case Named(n, a, o) =>
      var args := seq(|n.args|, i requires 0 <= i < |n.args| => Denote(p, home, n.args[i]));
      if n.param && |n.parts| == 1 then OfParam(n.parts[0], a, o)
      else if |n.parts| == 1 && IsDecl(p, Key(home, n.parts[0])) then OfDecl(Key(home, n.parts[0]), args, a, o)
      else if |n.parts| == 2 then OfDecl(Key(n.parts[0], n.parts[1]), args, a, o)
      else OfOther(n.parts, args, a, o)
  }

  function SuffixedDen(d: Den, dims: nat, optional: bool): Den {
    d.(dims := d.dims + dims, optional := d.optional || optional)
  }

  /** The denotation with type parameters replaced by other denotations. */
  function Replace(d: Den, m: map<string, Den>): Den {
    match d
    case OfMap(k, v, a, o) => OfMap(Replace(k, m), Replace(v, m), a, o)
    case OfParam(q, a, o) => if q in m then SuffixedDen(m[q], a, o) else d
    case OfDecl(key, args, a, o) => OfDecl(key, seq(|args|, i requires 0 <= i < |args| => Replace(args[i], m)), a, o)
    case OfOther(parts, args, a, o) =>
      OfOther(parts, seq(|args|, i requires 0 <= i < |args| => Replace(args[i], m)), a, o)
  }

  /** The references of t are marked for the scope, and a bare name home does
      not declare is declared by view neither. */
  ghost predicate Fit(p: Project, t: TypeRef, c: Scope) {
    forall n :: n in NamedRefs(t) ==> FitRef(p, n, c)
  }

  ghost predicate FitRef(p: Project, n: NamedRef, c: Scope) {
    && (n.param <==> |n.parts| == 1 && n.parts[0] in c.params)
    && (!n.param && |n.parts| == 1 && IsDecl(p, Key(c.view, n.parts[0])) ==> IsDecl(p, Key(c.home, n.parts[0])))
  }

  /** What the bindings of a scope denote in the package spelling them. */
  function Bindings(p: Project, c: Scope): map<string, Den> {
    map q | q in c.subst :: Denote(p, c.view, c.subst[q])
  }

  lemma SuffixDenotes(p: Project, home: string, t: TypeRef, a: nat, o: bool)
    ensures Denote(p, home, Suffixed(t, a, o)) == SuffixedDen(Denote(p, home, t), a, o)
  {
  }

  /** A type spelled in the view package denotes there what it denotes at
      home, its parameters replaced by what their arguments denote: no name
      is captured and none is lost. */
  lemma {:induction false} SpellDenotes(p: Project, t: TypeRef, c: Scope)
    requires OwnSubst(c) && Fit(p, t, c)
    ensures Denote(p, c.view, Spell(p, t, c)) == Replace(Denote(p, c.home, t), Bindings(p, c))
    decreases t
  {
    match t
    case MapOf(k, v, a, o) =>
      assert Fit(p, k, c) && Fit(p, v, c);
      SpellMap(p, k, v, a, o, c);
      SpellDenotes(p, k, c);
      SpellDenotes(p, v, c);
    case Named(n, a, o) =>
      assert n in NamedRefs(t) && FitRef(p, n, c);
      SpellNamed(p, n, a, o, c);
      if Bound(n, c.subst) {
        SuffixDenotes(p, c.view, c.subst[n.parts[0]], a, o);
      } else if !n.param {
        forall i | 0 <= i < |n.args|
          ensures Denote(p, c.view, Spell(p, n.args[i], c)) == Replace(Denote(p, c.home, n.args[i]), Bindings(p, c))
        {
          forall m | m in NamedRefs(n.args[i]) ensures FitRef(p, m, c) { NestedRefs(t, n, m, i); }
          SpellDenotes(p, n.args[i], c);
        }
        RefDenotes(p, n, a, o, c);
      }
  }

  lemma RefDenotes(p: Project, n: NamedRef, a: nat, o: bool, c: Scope)
    requires FitRef(p, n, c) && !n.param
    requires forall i :: 0 <= i < |n.args| ==>
      Denote(p, c.view, Spell(p, n.args[i], c)) == Replace(Denote(p, c.home, n.args[i]), Bindings(p, c))
    ensures Denote(p, c.view, Named(SpellRef(p, n, c), a, o)) ==
        Replace(Denote(p, c.home, Named(n, a, o)), Bindings(p, c))
  {
    var m := SpellRef(p, n, c);
    var here := seq(|n.args|, i requires 0 <= i < |n.args| => Denote(p, c.home, n.args[i]));
    var there := seq(|m.args|, i requires 0 <= i < |m.args| => Denote(p, c.view, m.args[i]));
    assert there == seq(|here|, i requires 0 <= i < |here| => Replace(here[i], Bindings(p, c)));
  }

  /** A reference resolves to a type exactly when it denotes that type's
      declaration: a type parameter resolves to none, whatever is declared under
      its name. */
  lemma TargetDenotes(p: Project, home: string, n: NamedRef, k: Key)
    requires n.param ==> |n.parts| == 1
    ensures Target(p, home, n) == Some(k) <==>
      var d := Denote(p, home, Named(n, 0, false)); d.OfDecl? && d.key == k && k in p.types
  {
  }

  // ---- Substitutions compose ----

  /** First s, then r. */
  function Then(s: Subst, r: Subst): Subst {
    map q | q in s.Keys + r.Keys :: if q in s then Substitute(s[q], r) else r[q]
  }

  lemma SubstituteSuffixed(t: TypeRef, a: nat, o: bool, r: Subst)
    ensures Substitute(Suffixed(t, a, o), r) == Suffixed(Substitute(t, r), a, o)
  {
  }

  /** Substituting twice is substituting once by the composition. */
  lemma {:induction false} SubstituteComposes(t: TypeRef, s: Subst, r: Subst)
    ensures Substitute(Substitute(t, s), r) == Substitute(t, Then(s, r))
    decreases t
  {
    match t
    case MapOf(k, v, _, _) =>
      SubstituteComposes(k, s, r);
      SubstituteComposes(v, s, r);
    case Named(n, a, o) =>
      if Bound(n, s) {
        SubstituteSuffixed(s[n.parts[0]], a, o, r);
      } else if !Bound(n, r) {
        forall i | 0 <= i < |n.args|
          ensures Substitute(Substitute(n.args[i], s), r) == Substitute(n.args[i], Then(s, r))
        {
          SubstituteComposes(n.args[i], s, r);
        }
        assert Substitute(Substitute(t, s), r).ref.args == Substitute(t, Then(s, r)).ref.args;
      }
  }
}
