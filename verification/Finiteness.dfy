/** With no flow that nests its parameter deeper on a cycle, the types a type
    reaches are finitely many. */
module Finiteness {
  import opened Ast
  import opened Spelling
  import opened Paths
  import opened Instantiation
  import opened Boundedness

  ghost predicate Covers(p: Project, view: string, t: TypeRef, all: set<TypeRef>) {
    forall u :: Reaches(p, view, t, u) ==> u in all
  }

  /** All that is reached from t lies in one finite set. */
  ghost predicate FinitelyMany(p: Project, view: string, t: TypeRef) {
    exists all :: Covers(p, view, t, all)
  }

  // ---- The types over finitely many names are finite at each depth ----

  /** The vocabulary of a type: its names and how many arguments it passes. */
  ghost predicate Spelt(t: TypeRef, names: set<seq<string>>, arity: nat) {
    forall n :: n in NamedRefs(t) ==> n.parts in names && |n.args| <= arity
  }

  ghost function Lists(items: set<TypeRef>, length: nat): set<seq<TypeRef>> {
    if length == 0 then {[]} else
      Lists(items, length - 1) +
      set xs, x | xs in Lists(items, length - 1) && x in items :: xs + [x]
  }

  lemma {:induction false} ListsHold(items: set<TypeRef>, length: nat, xs: seq<TypeRef>)
    requires |xs| <= length && forall i :: 0 <= i < |xs| ==> xs[i] in items
    ensures xs in Lists(items, length)
  {
    if xs == [] {
      if length > 0 { ListsHold(items, length - 1, xs); }
    } else {
      var front, last := xs[..|xs| - 1], xs[|xs| - 1];
      ListsHold(items, length - 1, front);
      assert xs == front + [last];
    }
  }

  ghost function UpTo(n: nat): (s: set<nat>)
    ensures forall i: nat :: i in s <==> i <= n
  {
    if n == 0 then {0} else UpTo(n - 1) + {n}
  }

  ghost function NamedTerms(names: set<seq<string>>, args: set<seq<TypeRef>>, dims: set<nat>): set<TypeRef> {
    set parts, param, xs, a, o | parts in names && param in {false, true} && xs in args && a in dims &&
        o in {false, true}
      :: Named(NamedRef(parts, param, xs), a, o)
  }

  ghost function MapTerms(inner: set<TypeRef>, dims: set<nat>): set<TypeRef> {
    set k, v, a, o | k in inner && v in inner && a in dims && o in {false, true} :: MapOf(k, v, a, o)
  }

  /** Every type of less than the given depth in the vocabulary. */
  ghost function Terms(names: set<seq<string>>, arity: nat, depth: nat): set<TypeRef> {
    if depth == 0 then {} else
      var inner := Terms(names, arity, depth - 1);
      NamedTerms(names, Lists(inner, arity), UpTo(depth)) + MapTerms(inner, UpTo(depth))
  }

  lemma NamedTermsHold(names: set<seq<string>>, args: set<seq<TypeRef>>, dims: set<nat>, n: NamedRef, a: nat, o: bool)
    requires n.parts in names && n.args in args && a in dims
    ensures Named(n, a, o) in NamedTerms(names, args, dims)
  {
    assert n == NamedRef(n.parts, n.param, n.args);
    assert n.param in {false, true} && o in {false, true};
  }

  lemma MapTermsHold(inner: set<TypeRef>, dims: set<nat>, k: TypeRef, v: TypeRef, a: nat, o: bool)
    requires k in inner && v in inner && a in dims
    ensures MapOf(k, v, a, o) in MapTerms(inner, dims)
  {
    assert o in {false, true};
  }

  ghost predicate Small(t: TypeRef, names: set<seq<string>>, arity: nat, depth: nat) {
    Spelt(t, names, arity) && Depth(t) < depth
  }

  /** The parts of a small type are smaller. */
  lemma SmallArg(n: NamedRef, a: nat, o: bool, i: nat, names: set<seq<string>>, arity: nat, depth: nat)
    requires Small(Named(n, a, o), names, arity, depth) && i < |n.args|
    ensures depth > 0 && Small(n.args[i], names, arity, depth - 1)
  {
    var t := Named(n, a, o);
    assert n in NamedRefs(t);
    forall m | m in NamedRefs(n.args[i]) ensures m in NamedRefs(t) { NestedRefs(t, n, m, i); }
    ArgShallower(n.args, i);
  }

  lemma SmallNamed(n: NamedRef, a: nat, o: bool, names: set<seq<string>>, arity: nat, depth: nat, inner: set<TypeRef>)
    requires Small(Named(n, a, o), names, arity, depth) && depth > 0
    requires forall u :: Small(u, names, arity, depth - 1) ==> u in inner
    ensures n.parts in names && n.args in Lists(inner, arity) && a in UpTo(depth)
  {
    assert n in NamedRefs(Named(n, a, o));
    forall i | 0 <= i < |n.args| ensures n.args[i] in inner { SmallArg(n, a, o, i, names, arity, depth); }
    ListsHold(inner, arity, n.args);
  }

  lemma {:induction false} TermsHold(names: set<seq<string>>, arity: nat, depth: nat)
    ensures forall t :: Small(t, names, arity, depth) ==> t in Terms(names, arity, depth)
  {
    if depth > 0 {
      var inner, dims := Terms(names, arity, depth - 1), UpTo(depth);
      TermsHold(names, arity, depth - 1);
      forall t | Small(t, names, arity, depth)
        ensures t in NamedTerms(names, Lists(inner, arity), dims) + MapTerms(inner, dims)
      {
        match t
        case MapOf(k, v, a, o) =>
          assert Small(k, names, arity, depth - 1) && Small(v, names, arity, depth - 1);
          MapTermsHold(inner, dims, k, v, a, o);
        case Named(n, a, o) =>
          SmallNamed(n, a, o, names, arity, depth, inner);
          NamedTermsHold(names, Lists(inner, arity), dims, n, a, o);
      }
    }
  }

  // ---- The vocabulary is kept ----

  ghost predicate Closing(p: Project, names: set<seq<string>>, arity: nat) {
    forall k, n :: k in p.types && n in BodyRefs(p.types[k].body) ==>
      n.parts in names && |n.args| <= arity && (|n.parts| == 1 ==> [k.pkg, n.parts[0]] in names)
  }

  lemma MemberSpelt(p: Project, view: string, t: TypeRef, n: NamedRef, i: nat, m: NamedRef, names: set<seq<string>>,
                    arity: nat)
    requires Closing(p, names, arity) && Spelt(t, names, arity) && n in NamedRefs(t) && HasMember(p, view, n, i)
    requires m in NamedRefs(MemberType(p, view, n, i))
    ensures m.parts in names && |m.args| <= arity
  {
    var k := Target(p, view, n).value;
    var c := BodyScope(p, k, n.args, view);
    ScopeOwn(p, k, n.args, view);
    var h := RefsOfSpelled(p, Root(p.types[k].body[i]), c, m);
    BodyRefsHold(p.types[k].body, i, h);
    if Bound(h, c.subst) {
      var x := SubstMapFrom(p.types[k].params, n.args, h.parts[0]);
      NestedRefs(t, n, m, x);
    }
  }

  lemma StepSpelt(p: Project, view: string, t: TypeRef, u: TypeRef, names: set<seq<string>>, arity: nat)
    requires Closing(p, names, arity) && Spelt(t, names, arity) && Step(p, view, t, u)
    ensures Spelt(u, names, arity)
  {
    var n, i :| n in NamedRefs(t) && HasMember(p, view, n, i) && u == MemberType(p, view, n, i);
    forall m | m in NamedRefs(u) ensures m.parts in names && |m.args| <= arity {
      MemberSpelt(p, view, t, n, i, m, names, arity);
    }
  }

  lemma ReachedSpelt(p: Project, view: string, t: TypeRef, u: TypeRef, names: set<seq<string>>, arity: nat)
    requires Closing(p, names, arity) && Spelt(t, names, arity) && Reaches(p, view, t, u)
    ensures Spelt(u, names, arity)
  {
    var spelt := iset x | Spelt(x, names, arity);
    forall x, y | x in spelt && (x, y) in Steps(p, view) ensures y in spelt { StepSpelt(p, view, x, y, names, arity); }
    Kept(Steps(p, view), t, u, spelt);
  }

  ghost function MostArgs(ns: seq<NamedRef>): (a: nat)
    ensures forall n :: n in ns ==> |n.args| <= a
  {
    if ns == [] then 0 else
      var rest := MostArgs(ns[1..]);
      if |ns[0].args| > rest then |ns[0].args| else rest
  }

  ghost function KeysArgs(p: Project, keys: set<Key>): (a: nat)
    requires keys <= p.types.Keys
    ensures forall k :: k in keys ==> MostArgs(BodyRefs(p.types[k].body)) <= a
  {
    if keys == {} then 0 else
      var k :| k in keys;
      var a, rest := MostArgs(BodyRefs(p.types[k].body)), KeysArgs(p, keys - {k});
      if a > rest then a else rest
  }

  /** The names of p's bodies, and the bare ones qualified by their package. */
  ghost function BodyNames(p: Project): set<seq<string>> {
    (set k, n | k in p.types && n in BodyRefs(p.types[k].body) :: n.parts) +
    (set k, n | k in p.types && n in BodyRefs(p.types[k].body) && |n.parts| == 1 :: [k.pkg, n.parts[0]])
  }

  lemma BodyNamesHold(p: Project, k: Key, n: NamedRef)
    requires k in p.types && n in BodyRefs(p.types[k].body)
    ensures n.parts in BodyNames(p) && (|n.parts| == 1 ==> [k.pkg, n.parts[0]] in BodyNames(p))
  {
  }

  /** A vocabulary of t closed under the unfolding of p's types. */
  lemma Vocabulary(p: Project, t: TypeRef) returns (names: set<seq<string>>, arity: nat)
    ensures Closing(p, names, arity) && Spelt(t, names, arity)
  {
    names := BodyNames(p) + set n | n in NamedRefs(t) :: n.parts;
    var own, others := MostArgs(NamedRefs(t)), KeysArgs(p, p.types.Keys);
    arity := if own > others then own else others;
    forall k, n | k in p.types && n in BodyRefs(p.types[k].body)
      ensures n.parts in names && |n.args| <= arity && (|n.parts| == 1 ==> [k.pkg, n.parts[0]] in names)
    {
      BodyNamesHold(p, k, n);
      assert MostArgs(BodyRefs(p.types[k].body)) <= others;
    }
  }

  // ---- Every type reached is of bounded depth ----

  /** The greatest bound of a slot. */
  ghost function Ceiling(p: Project, d: nat): (r: nat)
    ensures r >= d
  {
    MulMono(Grain(p), 0, |Slots(p)|);
    d + Grain(p) * |Slots(p)|
  }

  lemma SlotBelowCeiling(p: Project, view: string, d: nat, s: Slot)
    ensures SlotBound(p, view, d, s) <= Ceiling(p, d)
  {
    SubsetSize(Reaching(p, view, s), Slots(p));
    MulMono(Grain(p), |Reaching(p, view, s)|, |Slots(p)|);
  }

  /** A member of an instance whose arguments are within bounds is a grain
      deeper at most. */
  lemma MemberDepth(p: Project, view: string, n: NamedRef, i: nat, top: nat)
    requires HasMember(p, view, n, i)
    requires forall x: nat :: Fills(p, view, n, x) ==> Depth(n.args[x]) <= top
    ensures Depth(MemberType(p, view, n, i)) <= Grain(p) + top
  {
    var k := Target(p, view, n).value;
    var c := BodyScope(p, k, n.args, view);
    ScopeOwn(p, k, n.args, view);
    forall q | q in c.subst ensures Depth(c.subst[q]) <= top {
      var x := SubstMapFrom(p.types[k].params, n.args, q);
      assert Fills(p, view, n, x);
    }
    SpelledDepth(p, Root(p.types[k].body[i]), c, top);
    assert RootsDepth(p.types[k].body) <= Grain(p);
  }

  lemma StepDepth(p: Project, view: string, t: TypeRef, u: TypeRef, b: Slot -> nat, top: nat)
    requires Fits(p, view, b, t) && Step(p, view, t, u) && forall s :: b(s) <= top
    ensures Depth(u) <= Grain(p) + top
  {
    var n, i :| n in NamedRefs(t) && HasMember(p, view, n, i) && u == MemberType(p, view, n, i);
    MemberDepth(p, view, n, i, top);
  }

  lemma DepthKept(p: Project, view: string, t: TypeRef, u: TypeRef, b: Slot -> nat, top: nat)
    requires Potential(p, view, b) && Fits(p, view, b, t) && Reaches(p, view, t, u)
    requires Depth(t) <= top && forall s :: b(s) <= top
    ensures Depth(u) <= Grain(p) + top
  {
    var fit := iset x | Fits(p, view, b, x) && Depth(x) <= Grain(p) + top;
    forall x, y | x in fit && (x, y) in Steps(p, view) ensures y in fit {
      StepFits(p, view, b, x, y);
      StepDepth(p, view, x, y, b, top);
    }
    Kept(Steps(p, view), t, u, fit);
  }

  lemma ReachedDepth(p: Project, view: string, t: TypeRef, u: TypeRef)
    requires Settled(p, view) && Reaches(p, view, t, u)
    ensures Depth(u) <= Grain(p) + Ceiling(p, Depth(t))
  {
    var b := s => SlotBound(p, view, Depth(t), s);
    SettledPotential(p, view, Depth(t));
    StartFits(p, view, t, b);
    forall s ensures b(s) <= Ceiling(p, Depth(t)) { SlotBelowCeiling(p, view, Depth(t), s); }
    DepthKept(p, view, t, u, b, Ceiling(p, Depth(t)));
  }

  /** With no deepening flow on a cycle, what any type reaches is finite. */
  lemma SettledFinite(p: Project, view: string, t: TypeRef)
    requires Settled(p, view)
    ensures FinitelyMany(p, view, t)
  {
    var names, arity := Vocabulary(p, t);
    var depth := Grain(p) + Ceiling(p, Depth(t)) + 1;
    TermsHold(names, arity, depth);
    forall u | Reaches(p, view, t, u) ensures u in Terms(names, arity, depth) {
      ReachedDepth(p, view, t, u);
      ReachedSpelt(p, view, t, u, names, arity);
      assert Small(u, names, arity, depth);
    }
    assert Covers(p, view, t, Terms(names, arity, depth));
  }
}
