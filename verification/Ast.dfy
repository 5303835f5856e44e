/** Type references and type declarations, as the AST spells them. */
module Ast {

  /** A type name with its generic arguments. `param` records whether the
      project's table of type-parameter references holds this reference. */
  datatype NamedRef = NamedRef(parts: seq<string>, param: bool, args: seq<TypeRef>)

  /** A named type or a map, then `dims` pairs of brackets and an optional `?`. */
  datatype TypeRef =
    | Named(ref: NamedRef, dims: nat, optional: bool)
    | MapOf(key: TypeRef, value: TypeRef, dims: nat, optional: bool)

  datatype Option<+T> = None | Some(value: T)

  datatype Member = Field(name: string, typ: TypeRef) | Mixin(ref: NamedRef)

  datatype TypeDecl = TypeDecl(params: seq<string>, body: seq<Member>)

  /** A declaration's package and name. */
  datatype Key = Key(pkg: string, name: string)

  /** The types of every package, and the enums and scalars beside them. */
  datatype Project = Project(types: map<Key, TypeDecl>, values: set<Key>)

  /** The type a member spells: a field's own, or the bare type a mixin embeds. */
  function Root(m: Member): TypeRef {
    match m
    case Field(_, t) => t
    case Mixin(n) => Named(n, 0, false)
  }

  /** The named types in t, innermost first: those of a map's key before its
      value's, and those of generic arguments before the type that takes them. */
  function NamedRefs(t: TypeRef): seq<NamedRef> {
    match t
    case MapOf(k, v, _, _) => NamedRefs(k) + NamedRefs(v)
    case Named(n, _, _) => ArgRefs(n.args) + [n]
  }

  function ArgRefs(args: seq<TypeRef>): seq<NamedRef> {
    if args == [] then [] else NamedRefs(args[0]) + ArgRefs(args[1..])
  }

  lemma {:induction false} ArgRefsHold(args: seq<TypeRef>, i: nat, n: NamedRef)
    requires i < |args| && n in NamedRefs(args[i])
    ensures n in ArgRefs(args)
  {
    if i > 0 { ArgRefsHold(args[1..], i - 1, n); }
  }

  lemma {:induction false} ArgRefsFrom(args: seq<TypeRef>, n: NamedRef) returns (i: nat)
    requires n in ArgRefs(args)
    ensures i < |args| && n in NamedRefs(args[i])
  {
    if n in NamedRefs(args[0]) {
      i := 0;
    } else {
      i := ArgRefsFrom(args[1..], n);
      i := i + 1;
    }
  }

  /** How deeply t nests generic arguments, maps and array dimensions. */
  function Depth(t: TypeRef): nat {
    match t
    case MapOf(k, v, a, _) => a + 1 + (if Depth(k) > Depth(v) then Depth(k) else Depth(v))
    case Named(n, a, _) => a + ArgsDepth(n.args)
  }

  /** One more than the deepest argument; nothing for no arguments. */
  function ArgsDepth(args: seq<TypeRef>): nat {
    if args == [] then 0 else
      var head, rest := 1 + Depth(args[0]), ArgsDepth(args[1..]);
      if head > rest then head else rest
  }

  lemma {:induction false} ArgShallower(args: seq<TypeRef>, i: nat)
    requires i < |args|
    ensures Depth(args[i]) < ArgsDepth(args)
  {
    if i > 0 { ArgShallower(args[1..], i - 1); }
  }

  /** A bound on the depth of every argument bounds that of them all. */
  lemma {:induction false} ArgsWithin(args: seq<TypeRef>, d: nat)
    requires forall i :: 0 <= i < |args| ==> Depth(args[i]) < d
    ensures ArgsDepth(args) <= d
  {
    if args != [] {
      assert forall i :: 0 <= i < |args| - 1 ==> args[1..][i] == args[i + 1];
      ArgsWithin(args[1..], d);
    }
  }

  /** The parameter's name occurs somewhere in t. */
  predicate Mentions(t: TypeRef, param: string) {
    exists n :: n in NamedRefs(t) && n.parts == [param]
  }

  /** A named type nested in t is no deeper than t. */
  lemma {:induction false} NestedDepth(t: TypeRef, n: NamedRef)
    requires n in NamedRefs(t)
    ensures ArgsDepth(n.args) <= Depth(t)
    decreases t
  {
    match t
    case MapOf(k, v, _, _) =>
      if n in NamedRefs(k) { NestedDepth(k, n); } else { NestedDepth(v, n); }
    case Named(m, _, _) =>
      if n != m {
        var i := ArgRefsFrom(m.args, n);
        NestedDepth(m.args[i], n);
        ArgShallower(m.args, i);
      }
  }

  /** What a named type nested in t holds, t holds. */
  lemma {:induction false} NestedRefs(t: TypeRef, n: NamedRef, m: NamedRef, i: nat)
    requires n in NamedRefs(t) && i < |n.args| && m in NamedRefs(n.args[i])
    ensures m in NamedRefs(t)
    decreases t
  {
    match t
    case MapOf(k, v, _, _) =>
      if n in NamedRefs(k) { NestedRefs(k, n, m, i); } else { NestedRefs(v, n, m, i); }
    case Named(h, _, _) =>
      if n == h {
        ArgRefsHold(h.args, i, m);
      } else {
        var j := ArgRefsFrom(h.args, n);
        NestedRefs(h.args[j], n, m, i);
        ArgRefsHold(h.args, j, m);
      }
  }
}
