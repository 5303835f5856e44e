/** What types a closed type reaches through the fields and mixins of the
    generic types it instantiates, and a bound on how deep they get. */
module Boundedness {
  import opened Ast
  import opened Spelling
  import opened Paths
  import opened Instantiation

  /** The reference table is right: a body's reference is a type parameter's
      exactly when it is a bare name among the parameters in scope. */
  ghost predicate Marked(p: Project) {
    forall k, n :: k in p.types && n in BodyRefs(p.types[k].body) ==>
      (n.param <==> |n.parts| == 1 && n.parts[0] in p.types[k].params)
  }

  /** A member of a body of package home that has a type: a mixin is looked
      up in home, and one that names no type there stands for nothing. */
  predicate Expands(p: Project, home: string, m: Member) { m.Mixin? ==> Target(p, home, m.ref).Some? }

  /** n stands in the i-th member of the body of k, which expands. */
  predicate LiveAt(p: Project, k: Key, n: NamedRef, i: nat)
    requires k in p.types
  {
    i < |p.types[k].body| && Expands(p, k.pkg, p.types[k].body[i]) && n in NamedRefs(Root(p.types[k].body[i]))
  }

  ghost predicate Live(p: Project, k: Key, n: NamedRef)
    requires k in p.types
  {
    exists i: nat :: LiveAt(p, k, n, i)
  }

  lemma LiveRef(p: Project, k: Key, n: NamedRef)
    requires k in p.types && Live(p, k, n)
    ensures n in BodyRefs(p.types[k].body)
  {
    var i: nat :| LiveAt(p, k, n, i);
    BodyRefsHold(p.types[k].body, i, n);
  }

  /** Package view captures no name: a bare name of another package's body
      that view declares as a type, its own package declares too. */
  ghost predicate WellScoped(p: Project, view: string) {
    forall k, n | k in p.types && Live(p, k, n) &&
      !n.param && |n.parts| == 1 && Key(view, n.parts[0]) in p.types :: Declared(p, Key(k.pkg, n.parts[0]))
  }

  ghost predicate Sound(p: Project, view: string) { Marked(p) && WellScoped(p, view) }

  /** The instance n names has an i-th member, and it expands. */
  predicate HasMember(p: Project, view: string, n: NamedRef, i: nat) {
    var k := Target(p, view, n);
    k.Some? && i < |p.types[k.value].body| && Expands(p, k.value.pkg, p.types[k.value].body[i])
  }

  /** The type of the i-th member of the instance n names, as view spells it. */
  function MemberType(p: Project, view: string, n: NamedRef, i: nat): TypeRef
    requires HasMember(p, view, n, i)
  {
    var k := Target(p, view, n).value;
    Spell(p, Root(p.types[k].body[i]), BodyScope(p, k, n.args, view))
  }

  /** A member of an instance t names, nested arguments included, has type u. */
  ghost predicate Step(p: Project, view: string, t: TypeRef, u: TypeRef) {
    exists n, i :: n in NamedRefs(t) && HasMember(p, view, n, i) && u == MemberType(p, view, n, i)
  }

  ghost function Steps(p: Project, view: string): iset<(TypeRef, TypeRef)> {
    iset t, u | Step(p, view, t, u) :: (t, u)
  }

  /** t reaches u through members of the instances it names. */
  ghost predicate Reaches(p: Project, view: string, t: TypeRef, u: TypeRef) { Leads(Steps(p, view), t, u) }

  lemma ReachesSelf(p: Project, view: string, t: TypeRef)
    ensures Reaches(p, view, t, t)
  {
    LeadsSelf(Steps(p, view), t);
  }

  lemma ReachesOn(p: Project, view: string, t: TypeRef, u: TypeRef, w: TypeRef)
    requires Reaches(p, view, t, u) && Step(p, view, u, w)
    ensures Reaches(p, view, t, w)
  {
    LeadsOn(Steps(p, view), t, u, w);
  }

  // ---- Resolution survives spelling ----

  lemma ScopeOwn(p: Project, k: Key, args: seq<TypeRef>, view: string)
    requires k in p.types
    ensures OwnSubst(BodyScope(p, k, args, view))
  {
    var params := p.types[k].params;
    forall q | q in SubstMap(params, args) ensures q in params { var i := SubstMapFrom(params, args, q); }
  }

  /** The name of a reference n of the body of k, spelled for view. */
  function ViewParts(p: Project, view: string, k: Key, n: NamedRef): seq<string>
    requires k in p.types
  {
    if k.pkg == view then n.parts else QualifiedParts(p, n, k.pkg, p.types[k].params)
  }

  /** The type a reference n of the body of k names once spelled for view. */
  function ViewTarget(p: Project, view: string, k: Key, n: NamedRef): Option<Key>
    requires k in p.types
  {
    Target(p, view, n.(parts := ViewParts(p, view, k, n)))
  }

  lemma SpelledTarget(p: Project, k: Key, n: NamedRef, args: seq<TypeRef>, view: string)
    requires k in p.types
    ensures Target(p, view, SpellRef(p, n, BodyScope(p, k, args, view))) == ViewTarget(p, view, k, n)
  {
  }

  /** A reference names, for a package that captures no name, what it names at
      home. */
  lemma TargetSpelled(p: Project, k: Key, n: NamedRef, view: string)
    requires Sound(p, view) && k in p.types && Live(p, k, n)
    ensures ViewTarget(p, view, k, n) == Target(p, k.pkg, n)
  {
    LiveRef(p, k, n);
  }

  // ---- The flows one package sees ----

  /** A flow of the project as package view spells its bodies: the site stands
      in a member that expands, and its target is the one view resolves it
      to. */
  ghost predicate IsFlowIn(p: Project, view: string, f: Flow) {
    && f.host in p.types && f.from.host == f.host
    && f.from.index < |p.types[f.host].params| && f.param == p.types[f.host].params[f.from.index]
    && Live(p, f.host, f.site)
    && ViewTarget(p, view, f.host, f.site) == Some(f.to.host)
    && f.to.index < |f.site.args| && f.to.index < |p.types[f.to.host].params|
    && Mentions(f.site.args[f.to.index], f.param)
    && f.grows == Grows(f.site.args[f.to.index], f.param)
  }

  ghost function GraphIn(p: Project, view: string): Graph { iset f | IsFlowIn(p, view, f) :: (f.from, f.to) }

  /** A flow the search finds at a site that expands. */
  ghost predicate IsLiveFlow(p: Project, f: Flow) { IsFlow(p, f) && Live(p, f.host, f.site) }

  ghost function LiveGraph(p: Project): Graph { iset f | IsLiveFlow(p, f) :: (f.from, f.to) }

  /** A package that captures no name sees exactly the flows the search finds
      at sites that expand. */
  lemma FlowsAgree(p: Project, view: string)
    requires Sound(p, view)
    ensures forall f :: IsFlowIn(p, view, f) <==> IsLiveFlow(p, f)
    ensures GraphIn(p, view) == LiveGraph(p)
  {
    forall f ensures IsFlowIn(p, view, f) <==> IsLiveFlow(p, f) {
      if f.host in p.types && Live(p, f.host, f.site) {
        LiveRef(p, f.host, f.site);
        TargetSpelled(p, f.host, f.site, view);
      }
    }
  }

  // ---- The bound ----

  /** The argument nests the parameter deeper: only `?` leaves it as deep. */
  predicate Deepens(arg: TypeRef, param: string) { arg.dims > 0 || !BareParam(arg, param) }

  predicate DeepFlow(f: Flow) requires f.to.index < |f.site.args| {
    Deepens(f.site.args[f.to.index], f.param)
  }

  /** f, as package view sees it, nests its parameter deeper on a cycle. */
  ghost predicate DeepCycle(p: Project, view: string, f: Flow) {
    IsFlowIn(p, view, f) && DeepFlow(f) && Leads(GraphIn(p, view), f.to, f.from)
  }

  ghost predicate Settled(p: Project, view: string) { forall f :: !DeepCycle(p, view, f) }

  ghost function Slots(p: Project): set<Slot> {
    set k, i | k in p.types && 0 <= i < |p.types[k].params| :: Slot(k, i)
  }

  /** The slots whose flows lead to s. */
  ghost function Reaching(p: Project, view: string, s: Slot): set<Slot> {
    set x | x in Slots(p) && Leads(GraphIn(p, view), x, s)
  }

  ghost function RootsDepth(body: seq<Member>): (d: nat)
    ensures forall i :: 0 <= i < |body| ==> Depth(Root(body[i])) <= d
  {
    if body == [] then 0 else
      var last := |body| - 1;
      var d, rest := Depth(Root(body[last])), RootsDepth(body[..last]);
      if d > rest then d else rest
  }

  /** The depth of the deepest type the bodies of keys spell. */
  ghost function BodiesDepth(p: Project, keys: set<Key>): (d: nat)
    requires keys <= p.types.Keys
    ensures forall k :: k in keys ==> RootsDepth(p.types[k].body) <= d
  {
    if keys == {} then 0 else
      var k :| k in keys;
      var d, rest := RootsDepth(p.types[k].body), BodiesDepth(p, keys - {k});
      if d > rest then d else rest
  }

  ghost function Grain(p: Project): nat { BodiesDepth(p, p.types.Keys) }

  /** A bound on each slot that flows respect: a flow leads no lower, and one
      that deepens leads higher by as much as a body can deepen. */
  ghost predicate Potential(p: Project, view: string, b: Slot -> nat) {
    && (forall s :: s in Slots(p) ==> b(s) >= Grain(p))
    && (forall f :: IsFlowIn(p, view, f) ==> b(f.from) + (if DeepFlow(f) then Grain(p) else 0) <= b(f.to))
  }

  /** The slot the i-th argument of n fills. */
  predicate Fills(p: Project, view: string, n: NamedRef, i: nat) {
    Target(p, view, n).Some? && i < |n.args| && i < |p.types[Target(p, view, n).value].params|
  }

  function FilledSlot(p: Project, view: string, n: NamedRef, i: nat): Slot
    requires Fills(p, view, n, i)
  {
    Slot(Target(p, view, n).value, i)
  }

  /** The slot the j-th argument of the site h of k fills, as view spells it. */
  predicate Feeds(p: Project, view: string, k: Key, h: NamedRef, j: nat)
    requires k in p.types
  {
    ViewTarget(p, view, k, h).Some? && j < |h.args| && j < |p.types[ViewTarget(p, view, k, h).value].params|
  }

  function FedSlot(p: Project, view: string, k: Key, h: NamedRef, j: nat): Slot
    requires k in p.types && Feeds(p, view, k, h, j)
  {
    Slot(ViewTarget(p, view, k, h).value, j)
  }

  /** Every argument of every instance t names is within its slot's bound. */
  ghost predicate Fits(p: Project, view: string, b: Slot -> nat, t: TypeRef) {
    forall n, i: nat :: n in NamedRefs(t) && Fills(p, view, n, i) ==> Depth(n.args[i]) <= b(FilledSlot(p, view, n, i))
  }

  /** The flow a bound parameter takes through an argument of a body's site. */
  lemma FlowOfArgument(p: Project, view: string, k: Key, h: NamedRef, j: nat, q: string, args: seq<TypeRef>)
    returns (f: Flow)
    requires k in p.types && Live(p, k, h) && Feeds(p, view, k, h, j)
    requires q in SubstMap(p.types[k].params, args) && Mentions(h.args[j], q)
    ensures IsFlowIn(p, view, f) && f.host == k && f.site == h && f.param == q && f.to == FedSlot(p, view, k, h, j)
    ensures f.from.index < |args| && SubstMap(p.types[k].params, args)[q] == args[f.from.index]
  {
    var params := p.types[k].params;
    var x := SubstMapFrom(params, args, q);
    f := Flow(k, h, q, Slot(k, x), FedSlot(p, view, k, h, j), Grows(h.args[j], q));
  }

  /** The arguments of an instance of k are within their slots' bounds. */
  ghost predicate ArgsFit(p: Project, b: Slot -> nat, k: Key, args: seq<TypeRef>)
    requires k in p.types
  {
    forall i :: 0 <= i < |args| && i < |p.types[k].params| ==> Depth(args[i]) <= b(Slot(k, i))
  }

  lemma FlowFits(p: Project, view: string, b: Slot -> nat, f: Flow, args: seq<TypeRef>)
    requires Potential(p, view, b) && IsFlowIn(p, view, f) && ArgsFit(p, b, f.host, args) && f.from.index < |args|
    ensures Depth(args[f.from.index]) + (if DeepFlow(f) then Grain(p) else 0) <= b(f.to)
  {
    assert f.from == Slot(f.host, f.from.index);
  }

  /** A type of a body is no deeper than the grain. */
  lemma SiteDepth(p: Project, k: Key, h: NamedRef, j: nat)
    requires k in p.types && Live(p, k, h) && j < |h.args|
    ensures Depth(h.args[j]) <= Grain(p)
  {
    var i: nat :| LiveAt(p, k, h, i);
    NestedDepth(Root(p.types[k].body[i]), h);
    ArgShallower(h.args, j);
    assert RootsDepth(p.types[k].body) <= Grain(p);
  }

  /** A parameter passed on unchanged stays within the bound of its new slot. */
  lemma PassedOnFits(p: Project, view: string,
                     b: Slot -> nat, k: Key, args: seq<TypeRef>, c: Scope, h: NamedRef, j: nat)
    requires k in p.types && Potential(p, view, b) && ArgsFit(p, b, k, args)
    requires c.subst == SubstMap(p.types[k].params, args)
    requires Live(p, k, h) && Feeds(p, view, k, h, j) && OwnSubst(c)
    requires h.args[j].Named? && Bound(h.args[j].ref, c.subst) && h.args[j].dims == 0
    ensures Depth(Spell(p, h.args[j], c)) <= b(FedSlot(p, view, k, h, j))
  {
    var n := h.args[j].ref;
    assert n.parts == [n.parts[0]];
    var f := FlowOfArgument(p, view, k, h, j, n.parts[0], args);
    FlowFits(p, view, b, f, args);
    SpellNamed(p, n, 0, h.args[j].optional, c);
  }

  /** A type built around parameters stays within the bound of its slot. */
  lemma BuiltFits(p: Project, view: string, b: Slot -> nat, k: Key, args: seq<TypeRef>, c: Scope, h: NamedRef, j: nat)
    requires k in p.types && Potential(p, view, b) && ArgsFit(p, b, k, args)
    requires c.subst == SubstMap(p.types[k].params, args)
    requires Live(p, k, h) && Feeds(p, view, k, h, j) && OwnSubst(c)
    requires !(h.args[j].Named? && Bound(h.args[j].ref, c.subst) && h.args[j].dims == 0)
    ensures Depth(Spell(p, h.args[j], c)) <= b(FedSlot(p, view, k, h, j))
  {
    var a, to := h.args[j], FedSlot(p, view, k, h, j);
    assert to in Slots(p);
    var d := b(to) - Grain(p);
    forall q | q in c.subst && Mentions(a, q) ensures Depth(c.subst[q]) <= d {
      var f := FlowOfArgument(p, view, k, h, j, q, args);
      assert DeepFlow(f);
      FlowFits(p, view, b, f, args);
    }
    SpelledDepth(p, a, c, d);
    SiteDepth(p, k, h, j);
  }

  /** The argument of a respelled site stays within the bound of its slot. */
  lemma SiteFits(p: Project, view: string, b: Slot -> nat, k: Key, args: seq<TypeRef>, h: NamedRef, j: nat)
    requires k in p.types && Potential(p, view, b) && ArgsFit(p, b, k, args)
    requires Live(p, k, h)
    requires Fills(p, view, SpellRef(p, h, BodyScope(p, k, args, view)), j)
    ensures var m := SpellRef(p, h, BodyScope(p, k, args, view));
      Depth(m.args[j]) <= b(FilledSlot(p, view, m, j))
  {
    var c := BodyScope(p, k, args, view);
    ScopeOwn(p, k, args, view);
    SpelledTarget(p, k, h, args, view);
    if h.args[j].Named? && Bound(h.args[j].ref, c.subst) && h.args[j].dims == 0 {
      PassedOnFits(p, view, b, k, args, c, h, j);
    } else {
      BuiltFits(p, view, b, k, args, c, h, j);
    }
  }

  lemma InstanceFits(p: Project, view: string, b: Slot -> nat, t: TypeRef, n: NamedRef)
    requires Fits(p, view, b, t) && n in NamedRefs(t) && Target(p, view, n).Some?
    ensures ArgsFit(p, b, Target(p, view, n).value, n.args)
  {
    var k := Target(p, view, n).value;
    forall x | 0 <= x < |n.args| && x < |p.types[k].params| ensures Depth(n.args[x]) <= b(Slot(k, x)) {
      assert Fills(p, view, n, x);
    }
  }

  lemma MemberFits(p: Project, view: string, b: Slot -> nat, t: TypeRef, n: NamedRef, i: nat, m: NamedRef, j: nat)
    requires Potential(p, view, b) && Fits(p, view, b, t) && n in NamedRefs(t) && HasMember(p, view, n, i)
    requires m in NamedRefs(MemberType(p, view, n, i)) && Fills(p, view, m, j)
    ensures Depth(m.args[j]) <= b(FilledSlot(p, view, m, j))
  {
    var k := Target(p, view, n).value;
    var c := BodyScope(p, k, n.args, view);
    ScopeOwn(p, k, n.args, view);
    var h := RefsOfSpelled(p, Root(p.types[k].body[i]), c, m);
    assert LiveAt(p, k, h, i);
    if Bound(h, c.subst) {
      var x := SubstMapFrom(p.types[k].params, n.args, h.parts[0]);
      NestedRefs(t, n, m, x);
    } else {
      InstanceFits(p, view, b, t, n);
      SiteFits(p, view, b, k, n.args, h, j);
    }
  }

  /** Unfolding a member keeps every argument within its slot's bound. */
  lemma StepFits(p: Project, view: string, b: Slot -> nat, t: TypeRef, u: TypeRef)
    requires Potential(p, view, b) && Fits(p, view, b, t) && Step(p, view, t, u)
    ensures Fits(p, view, b, u)
  {
    var n, i :| n in NamedRefs(t) && HasMember(p, view, n, i) && u == MemberType(p, view, n, i);
    forall m, j: nat | m in NamedRefs(u) && Fills(p, view, m, j)
      ensures Depth(m.args[j]) <= b(FilledSlot(p, view, m, j))
    {
      MemberFits(p, view, b, t, n, i, m, j);
    }
  }

  // ---- A potential of every settled project ----

  /** How deep the arguments of slot s get from a type of depth d. */
  ghost function SlotBound(p: Project, view: string, d: nat, s: Slot): (r: nat)
    ensures r >= d
  {
    MulMono(Grain(p), 0, |Reaching(p, view, s)|);
    d + Grain(p) * |Reaching(p, view, s)|
  }

  lemma {:induction false} SubsetSize<T>(a: set<T>, b: set<T>)
    requires a <= b
    ensures |a| <= |b|
  {
    if a != {} {
      var x :| x in a;
      SubsetSize(a - {x}, b - {x});
    }
  }

  lemma MulMono(g: nat, a: nat, b: nat)
    requires a <= b
    ensures g * a <= g * b
  {
  }

  lemma SlotReachesItself(p: Project, view: string, s: Slot)
    requires s in Slots(p)
    ensures s in Reaching(p, view, s) && |Reaching(p, view, s)| >= 1
  {
    LeadsSelf(GraphIn(p, view), s);
    SubsetSize({s}, Reaching(p, view, s));
  }

  /** The slots that reach a flow's start reach its end, and the end besides
      when no cycle leads back. */
  lemma FlowReaching(p: Project, view: string, f: Flow)
    requires IsFlowIn(p, view, f)
    ensures |Reaching(p, view, f.from)| <= |Reaching(p, view, f.to)|
    ensures !Leads(GraphIn(p, view), f.to, f.from) ==> |Reaching(p, view, f.from)| + 1 <= |Reaching(p, view, f.to)|
  {
    var g, a, b := GraphIn(p, view), Reaching(p, view, f.from), Reaching(p, view, f.to);
    assert (f.from, f.to) in g;
    forall x | x in a ensures x in b { LeadsOn(g, x, f.from, f.to); }
    assert f.to in Slots(p);
    SlotReachesItself(p, view, f.to);
    SubsetSize(a, b);
    if !Leads(g, f.to, f.from) {
      SubsetSize(a, b - {f.to});
    }
  }

  lemma SettledPotential(p: Project, view: string, d: nat)
    requires Settled(p, view)
    ensures Potential(p, view, s => SlotBound(p, view, d, s))
  {
    forall s | s in Slots(p) ensures SlotBound(p, view, d, s) >= Grain(p) {
      SlotReachesItself(p, view, s);
      MulMono(Grain(p), 1, |Reaching(p, view, s)|);
    }
    forall f | IsFlowIn(p, view, f)
      ensures SlotBound(p, view, d, f.from) + (if DeepFlow(f) then Grain(p) else 0) <= SlotBound(p, view, d, f.to)
    {
      FlowReaching(p, view, f);
      assert !DeepCycle(p, view, f);
      var grow := if DeepFlow(f) then 1 else 0;
      MulMono(Grain(p), |Reaching(p, view, f.from)| + grow, |Reaching(p, view, f.to)|);
      Distribute(Grain(p), |Reaching(p, view, f.from)|, grow);
    }
  }

  lemma Distribute(g: nat, a: nat, b: nat)
    ensures g * (a + b) == g * a + g * b
  {
  }

  lemma StartFits(p: Project, view: string, t: TypeRef, b: Slot -> nat)
    requires forall s :: b(s) >= Depth(t)
    ensures Fits(p, view, b, t)
  {
    forall n, i: nat | n in NamedRefs(t) && i < |n.args| ensures Depth(n.args[i]) <= Depth(t) {
      NestedDepth(t, n);
      ArgShallower(n.args, i);
    }
  }

  lemma ReachedFits(p: Project, view: string, b: Slot -> nat, t: TypeRef, u: TypeRef)
    requires Potential(p, view, b) && Fits(p, view, b, t) && Reaches(p, view, t, u)
    ensures Fits(p, view, b, u)
  {
    var fit := iset x | Fits(p, view, b, x);
    forall x, y | x in fit && (x, y) in Steps(p, view) ensures y in fit { StepFits(p, view, b, x, y); }
    Kept(Steps(p, view), t, u, fit);
  }

  /** In every type t reaches, each argument is no deeper than t's own depth
      and one grain for each slot whose flows lead to the one it fills. */
  lemma ArgumentsBounded(p: Project, view: string, t: TypeRef, u: TypeRef)
    requires Settled(p, view) && Reaches(p, view, t, u)
    ensures Fits(p, view, s => SlotBound(p, view, Depth(t), s), u)
  {
    var b := s => SlotBound(p, view, Depth(t), s);
    SettledPotential(p, view, Depth(t));
    StartFits(p, view, t, b);
    ReachedFits(p, view, b, t, u);
  }
}
