/** The parts a type is made of, and that the lists of its named types hold
    exactly what they should. */
module TypeParts {
  import opened Ast
  import opened Paths

  type PartGraph = iset<(TypeRef, TypeRef)>

  ghost predicate MapPart(t: TypeRef, u: TypeRef) { t.MapOf? && (u == t.key || u == t.value) }

  /** From a map to its key and to its value. */
  ghost function MapParts(): PartGraph { iset t, u | MapPart(t, u) :: (t, u) }

  /** From a map to its key and value, and from a named type to its generic
      arguments. */
  ghost function AllParts(): PartGraph {
    iset t, u | MapPart(t, u) || (t.Named? && u in t.ref.args) :: (t, u)
  }

  /** A part of t names n. */
  ghost predicate NamedIn(parts: PartGraph, t: TypeRef, n: NamedRef) {
    exists b :: Leads(parts, t, b) && b.Named? && b.ref == n
  }

  lemma NamedHere(parts: PartGraph, t: TypeRef)
    requires t.Named?
    ensures NamedIn(parts, t, t.ref)
  {
    LeadsSelf(parts, t);
  }

  lemma NamedBelow(parts: PartGraph, t: TypeRef, u: TypeRef, n: NamedRef)
    requires (t, u) in parts && NamedIn(parts, u, n)
    ensures NamedIn(parts, t, n)
  {
    var b :| Leads(parts, u, b) && b.Named? && b.ref == n;
    LeadsUnder(parts, t, u, b);
  }

  lemma {:induction false} HeldIsPart(t: TypeRef, n: NamedRef)
    requires n in NamedRefs(t)
    ensures NamedIn(AllParts(), t, n)
    decreases t
  {
    match t
    case MapOf(k, v, _, _) =>
      if n in NamedRefs(k) {
        HeldIsPart(k, n);
        NamedBelow(AllParts(), t, k, n);
      } else {
        HeldIsPart(v, n);
        NamedBelow(AllParts(), t, v, n);
      }
    case Named(m, _, _) =>
      if n == m {
        NamedHere(AllParts(), t);
      } else {
        var i := ArgRefsFrom(m.args, n);
        HeldIsPart(m.args[i], n);
        NamedBelow(AllParts(), t, m.args[i], n);
      }
  }

  /** A part holds no more named types than the whole. */
  lemma PartHolds(t: TypeRef, u: TypeRef, n: NamedRef)
    requires (t, u) in AllParts() && n in NamedRefs(u)
    ensures n in NamedRefs(t)
  {
    if t.Named? {
      var i :| 0 <= i < |t.ref.args| && t.ref.args[i] == u;
      ArgRefsHold(t.ref.args, i, n);
    }
  }

  /** The named types of t are those of all its parts. */
  lemma NamedExactly(t: TypeRef, n: NamedRef)
    ensures n in NamedRefs(t) <==> NamedIn(AllParts(), t, n)
  {
    if n in NamedRefs(t) { HeldIsPart(t, n); }
    if NamedIn(AllParts(), t, n) {
      var b :| Leads(AllParts(), t, b) && b.Named? && b.ref == n;
      var within := iset u | forall m :: m in NamedRefs(u) ==> m in NamedRefs(t);
      forall x, y | x in within && (x, y) in AllParts() ensures y in within {
        forall m | m in NamedRefs(y) ensures m in NamedRefs(t) { PartHolds(x, y, m); }
      }
      Kept(AllParts(), t, b, within);
      assert n in NamedRefs(b);
    }
  }

  // ---- Outside generic arguments ----

  /** The named types of t that are no part of an argument list. */
  function OuterRefs(t: TypeRef): seq<NamedRef> {
    match t
    case MapOf(k, v, _, _) => OuterRefs(k) + OuterRefs(v)
    case Named(n, _, _) => [n]
  }

  lemma {:induction false} OuterNested(t: TypeRef, n: NamedRef)
    requires n in OuterRefs(t)
    ensures n in NamedRefs(t)
  {
    match t
    case MapOf(k, v, _, _) => if n in OuterRefs(k) { OuterNested(k, n); } else { OuterNested(v, n); }
    case Named(_, _, _) =>
  }

  /** t is built of n: through maps alone it comes to n. */
  ghost predicate BuiltOf(t: TypeRef, n: NamedRef) { NamedIn(MapParts(), t, n) }

  lemma {:induction false} OuterIsPart(t: TypeRef, n: NamedRef)
    requires n in OuterRefs(t)
    ensures BuiltOf(t, n)
    decreases t
  {
    match t
    case MapOf(k, v, _, _) =>
      if n in OuterRefs(k) {
        OuterIsPart(k, n);
        NamedBelow(MapParts(), t, k, n);
      } else {
        OuterIsPart(v, n);
        NamedBelow(MapParts(), t, v, n);
      }
    case Named(_, _, _) => NamedHere(MapParts(), t);
  }

  /** The outer named types of t are those its maps come to, keys and values
      alike. */
  lemma OuterExactly(t: TypeRef, n: NamedRef)
    ensures n in OuterRefs(t) <==> BuiltOf(t, n)
  {
    if n in OuterRefs(t) { OuterIsPart(t, n); }
    if BuiltOf(t, n) {
      var b :| Leads(MapParts(), t, b) && b.Named? && b.ref == n;
      var within := iset u | forall m :: m in OuterRefs(u) ==> m in OuterRefs(t);
      forall x, y | x in within && (x, y) in MapParts() ensures y in within {}
      Kept(MapParts(), t, b, within);
      assert n in OuterRefs(b);
    }
  }
}
