/** The key a walk marks an instance seen under, and that keys tell instances
    apart. */
module SeenKeys {
  import opened Ast
  import opened Spelling
  import opened Paths
  import opened Instantiation
  import opened Boundedness
  import opened Brackets
  import opened RoundTrip

  // ---- References whose spelling tells what they are ----

  /** The spelling of n tells whether it is a type parameter: q holds the
      parameters that references leave unbound. */
  predicate Flagged(q: set<string>, n: NamedRef) {
    n.parts != [] && (n.param <==> |n.parts| == 1 && n.parts[0] in q)
  }

  /** What an instance of k with so many arguments leaves unbound is in q. */
  predicate LeavesIn(p: Project, k: Key, count: nat, q: set<string>)
    requires k in p.types
  {
    forall i :: count <= i < |p.types[k].params| ==> p.types[k].params[i] in q
  }

  ghost predicate Readable(p: Project, view: string, q: set<string>, n: NamedRef) {
    Flagged(q, n) && (Target(p, view, n).Some? ==> LeavesIn(p, Target(p, view, n).value, |n.args|, q))
  }

  ghost predicate Legible(p: Project, view: string, q: set<string>, t: TypeRef) {
    forall n :: n in NamedRefs(t) ==> Readable(p, view, q, n)
  }

  /** A reference of the body of k, spelled for view, tells what it is. */
  ghost predicate ReadableIn(p: Project, view: string, q: set<string>, k: Key, n: NamedRef)
    requires k in p.types
  {
    && n.parts != []
    && (!n.param ==> Flagged(q, n.(parts := ViewParts(p, view, k, n))))
    && (ViewTarget(p, view, k, n).Some? ==> LeavesIn(p, ViewTarget(p, view, k, n).value, |n.args|, q))
  }

  ghost predicate LegibleBodies(p: Project, view: string, q: set<string>) {
    forall k, n :: k in p.types && Live(p, k, n) ==> ReadableIn(p, view, q, k, n)
  }

  /** A reference of a body that no argument replaces stays readable. */
  lemma SpelledReadable(p: Project, view: string, q: set<string>, k: Key, args: seq<TypeRef>, h: NamedRef)
    requires Marked(p) && LegibleBodies(p, view, q) && k in p.types && LeavesIn(p, k, |args|, q)
    requires Live(p, k, h) && !Bound(h, SubstMap(p.types[k].params, args))
    ensures Readable(p, view, q, SpellRef(p, h, BodyScope(p, k, args, view)))
  {
    var m := SpellRef(p, h, BodyScope(p, k, args, view));
    SpelledTarget(p, k, h, args, view);
    assert ReadableIn(p, view, q, k, h);
    LiveRef(p, k, h);
    if h.param {
      var i :| 0 <= i < |p.types[k].params| && p.types[k].params[i] == h.parts[0];
      if i < |args| { SubstMapHolds(p.types[k].params, args, i); }
    }
  }

  lemma MemberReadable(p: Project, view: string, q: set<string>, t: TypeRef, n: NamedRef, i: nat, m: NamedRef)
    requires Marked(p) && LegibleBodies(p, view, q) && Legible(p, view, q, t)
    requires n in NamedRefs(t) && HasMember(p, view, n, i) && m in NamedRefs(MemberType(p, view, n, i))
    ensures Readable(p, view, q, m)
  {
    var k := Target(p, view, n).value;
    var c := BodyScope(p, k, n.args, view);
    ScopeOwn(p, k, n.args, view);
    var h := RefsOfSpelled(p, Root(p.types[k].body[i]), c, m);
    assert LiveAt(p, k, h, i);
    assert Readable(p, view, q, n);
    if Bound(h, c.subst) {
      var x := SubstMapFrom(p.types[k].params, n.args, h.parts[0]);
      NestedRefs(t, n, m, x);
    } else {
      SpelledReadable(p, view, q, k, n.args, h);
    }
  }

  lemma StepLegible(p: Project, view: string, q: set<string>, t: TypeRef, u: TypeRef)
    requires Marked(p) && LegibleBodies(p, view, q) && Legible(p, view, q, t) && Step(p, view, t, u)
    ensures Legible(p, view, q, u)
  {
    var n, i :| n in NamedRefs(t) && HasMember(p, view, n, i) && u == MemberType(p, view, n, i);
    forall m | m in NamedRefs(u) ensures Readable(p, view, q, m) { MemberReadable(p, view, q, t, n, i, m); }
  }

  /** What a legible type reaches is legible. */
  lemma ReachedLegible(p: Project, view: string, q: set<string>, t: TypeRef, u: TypeRef)
    requires Marked(p) && LegibleBodies(p, view, q) && Legible(p, view, q, t) && Reaches(p, view, t, u)
    ensures Legible(p, view, q, u)
  {
    var legible := iset x | Legible(p, view, q, x);
    forall x, y | x in legible && (x, y) in Steps(p, view) ensures y in legible { StepLegible(p, view, q, x, y); }
    Kept(Steps(p, view), t, u, legible);
  }

  // ---- Types that print alike ----

  /** t with no reference marked as a type parameter's. */
  function Erase(t: TypeRef): TypeRef {
    match t
    case MapOf(k, v, a, o) => MapOf(Erase(k), Erase(v), a, o)
    case Named(n, a, o) => Named(NamedRef(n.parts, false, EraseArgs(n.args)), a, o)
  }

  function EraseArgs(args: seq<TypeRef>): seq<TypeRef> {
    if args == [] then [] else [Erase(args[0])] + EraseArgs(args[1..])
  }

  /** Marks are not printed. */
  lemma {:induction false} PrintErased(t: TypeRef)
    requires Nameable(t)
    ensures Printable(Erase(t)) && Print(Erase(t)) == Print(t)
    decreases t, 1
  {
    match t
    case MapOf(k, v, _, _) =>
      PrintErased(k);
      PrintErased(v);
    case Named(n, _, _) =>
      if n.args != [] { PrintErasedArgs(n.args); }
  }

  lemma {:induction false} PrintErasedArgs(args: seq<TypeRef>)
    requires args != [] && NameableArgs(args)
    ensures EraseArgs(args) != [] && PrintableArgs(EraseArgs(args)) && PrintArgs(EraseArgs(args)) == PrintArgs(args)
    decreases args
  {
    var rest := EraseArgs(args[1..]);
    PrintErased(args[0]);
    assert EraseArgs(args)[1..] == rest && EraseArgs(args)[0] == Erase(args[0]);
    if |args| > 1 { PrintErasedArgs(args[1..]); }
  }

  predicate AllFlagged(q: set<string>, t: TypeRef) {
    match t
    case MapOf(k, v, _, _) => AllFlagged(q, k) && AllFlagged(q, v)
    case Named(n, _, _) => Flagged(q, n) && ArgsFlagged(q, n.args)
  }

  predicate ArgsFlagged(q: set<string>, args: seq<TypeRef>) {
    args == [] || (AllFlagged(q, args[0]) && ArgsFlagged(q, args[1..]))
  }

  /** Marks that the spelling tells are not lost by erasing them. */
  lemma {:induction false} EraseInjective(q: set<string>, t: TypeRef, u: TypeRef)
    requires AllFlagged(q, t) && AllFlagged(q, u) && Erase(t) == Erase(u)
    ensures t == u
    decreases t, 1
  {
    match t
    case MapOf(k, v, _, _) =>
      EraseInjective(q, k, u.key);
      EraseInjective(q, v, u.value);
    case Named(n, _, _) =>
      EraseArgsInjective(q, n.args, u.ref.args);
  }

  lemma {:induction false} EraseArgsInjective(q: set<string>, xs: seq<TypeRef>, ys: seq<TypeRef>)
    requires ArgsFlagged(q, xs) && ArgsFlagged(q, ys) && EraseArgs(xs) == EraseArgs(ys)
    ensures xs == ys
    decreases xs
  {
    if xs != [] && ys != [] {
      assert EraseArgs(xs)[0] == Erase(xs[0]) && EraseArgs(ys)[0] == Erase(ys[0]);
      assert EraseArgs(xs)[1..] == EraseArgs(xs[1..]) && EraseArgs(ys)[1..] == EraseArgs(ys[1..]);
      EraseInjective(q, xs[0], ys[0]);
      EraseArgsInjective(q, xs[1..], ys[1..]);
      assert xs == [xs[0]] + xs[1..] && ys == [ys[0]] + ys[1..];
    }
  }

  lemma {:induction false} LegibleFlagged(p: Project, view: string, q: set<string>, t: TypeRef)
    requires Legible(p, view, q, t)
    ensures AllFlagged(q, t) && Nameable(t)
    decreases t, 1
  {
    match t
    case MapOf(k, v, _, _) =>
      assert Legible(p, view, q, k) && Legible(p, view, q, v);
      LegibleFlagged(p, view, q, k);
      LegibleFlagged(p, view, q, v);
    case Named(n, _, _) =>
      assert n in NamedRefs(t);
      forall i | 0 <= i < |n.args| ensures Legible(p, view, q, n.args[i]) {
        forall m | m in NamedRefs(n.args[i]) ensures m in NamedRefs(t) { NestedRefs(t, n, m, i); }
      }
      LegibleArgsFlagged(p, view, q, n.args);
  }

  lemma {:induction false} LegibleArgsFlagged(p: Project, view: string, q: set<string>, args: seq<TypeRef>)
    requires forall i :: 0 <= i < |args| ==> Legible(p, view, q, args[i])
    ensures ArgsFlagged(q, args) && NameableArgs(args)
    decreases args
  {
    if args != [] {
      LegibleFlagged(p, view, q, args[0]);
      LegibleArgsFlagged(p, view, q, args[1..]);
    }
  }

  // ---- The key ----

  /** The package an instance is declared in and its printed form. */
  datatype SeenKey = SeenKey(pkg: string, printed: seq<Lexeme>)

  function KeyOf(p: Project, view: string, n: NamedRef): SeenKey {
    SeenKey(if Target(p, view, n).Some? then Target(p, view, n).value.pkg else "",
            if Nameable(Named(n, 0, false)) then Print(Named(n, 0, false)) else [])
  }

  ghost predicate LegibleRef(p: Project, view: string, q: set<string>, n: NamedRef) {
    Legible(p, view, q, Named(n, 0, false))
  }

  lemma RefLegible(p: Project, view: string, q: set<string>, t: TypeRef, n: NamedRef)
    requires Legible(p, view, q, t) && n in NamedRefs(t)
    ensures LegibleRef(p, view, q, n)
  {
    forall m | m in NamedRefs(Named(n, 0, false)) ensures m in NamedRefs(t) {
      if m != n {
        var i := ArgRefsFrom(n.args, m);
        NestedRefs(t, n, m, i);
      }
    }
  }

  /** Legible instances are told apart by their keys. */
  lemma KeyInjective(p: Project, view: string, q: set<string>, n: NamedRef, m: NamedRef)
    requires LegibleRef(p, view, q, n) && LegibleRef(p, view, q, m) && KeyOf(p, view, n) == KeyOf(p, view, m)
    ensures n == m
  {
    var t, u := Named(n, 0, false), Named(m, 0, false);
    LegibleFlagged(p, view, q, t);
    LegibleFlagged(p, view, q, u);
    PrintErased(t);
    PrintErased(u);
    PrintInjective(Erase(t), Erase(u));
    EraseInjective(q, t, u);
  }
}
