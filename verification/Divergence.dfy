/** A flow that nests its parameter deeper on a cycle never ends, so the search
    for endless flows decides whether instantiation is finite. */
module Divergence {
  import opened Ast
  import opened Spelling
  import opened Paths
  import opened Instantiation
  import opened Boundedness
  import opened Finiteness

  // ---- A deepening flow on a cycle never ends ----

  /** A type parameter takes no arguments. */
  ghost predicate PlainParams(p: Project) {
    forall k, n :: k in p.types && n in BodyRefs(p.types[k].body) && n.param ==> n.args == []
  }

  ghost predicate DistinctParams(p: Project) { forall k :: k in p.types ==> Distinct(p.types[k].params) }

  /** The bound references of t take no arguments. */
  ghost predicate PlainIn(t: TypeRef, s: Subst) {
    forall n :: n in NamedRefs(t) && Bound(n, s) ==> n.args == []
  }

  lemma PlainArg(n: NamedRef, i: nat, a: nat, o: bool, s: Subst)
    requires PlainIn(Named(n, a, o), s) && i < |n.args|
    ensures PlainIn(n.args[i], s)
  {
    var t := Named(n, a, o);
    assert n in NamedRefs(t);
    forall m | m in NamedRefs(n.args[i]) ensures m in NamedRefs(t) { NestedRefs(t, n, m, i); }
  }

  /** A named type of a body, once spelled, is in the spelled body. */
  lemma {:induction false} SpelledHolds(p: Project, t: TypeRef, c: Scope, h: NamedRef)
    requires OwnSubst(c) && PlainIn(t, c.subst) && h in NamedRefs(t) && !Bound(h, c.subst)
    ensures SpellRef(p, h, c) in NamedRefs(Spell(p, t, c))
    decreases t
  {
    match t
    case MapOf(k, v, a, o) =>
      SpellMap(p, k, v, a, o, c);
      assert PlainIn(k, c.subst) && PlainIn(v, c.subst);
      if h in NamedRefs(k) { SpelledHolds(p, k, c, h); } else { SpelledHolds(p, v, c, h); }
    case Named(n, a, o) =>
      SpellNamed(p, n, a, o, c);
      assert n in NamedRefs(t);
      if h != n {
        var i := ArgRefsFrom(n.args, h);
        PlainArg(n, i, a, o, c.subst);
        SpelledHolds(p, n.args[i], c, h);
        ArgRefsHold(SpellRef(p, n, c).args, i, SpellRef(p, h, c));
      }
  }

  /** A spelled type is as deep as each argument it takes, and deeper than
      one it nests. */
  lemma {:induction false} SpelledNests(p: Project, t: TypeRef, c: Scope, q: string)
    requires OwnSubst(c) && PlainIn(t, c.subst) && q in c.subst && Mentions(t, q)
    ensures Depth(Spell(p, t, c)) >= Depth(c.subst[q]) + (if Deepens(t, q) then 1 else 0)
    decreases t
  {
    var h :| h in NamedRefs(t) && h.parts == [q];
    match t
    case MapOf(k, v, a, o) =>
      SpellMap(p, k, v, a, o, c);
      assert PlainIn(k, c.subst) && PlainIn(v, c.subst);
      if h in NamedRefs(k) { SpelledNests(p, k, c, q); } else { SpelledNests(p, v, c, q); }
    case Named(n, a, o) =>
      SpellNamed(p, n, a, o, c);
      assert n in NamedRefs(t);
      if n.parts != [q] {
        var i := ArgRefsFrom(n.args, h);
        PlainArg(n, i, a, o, c.subst);
        SpelledNests(p, n.args[i], c, q);
        ArgShallower(SpellRef(p, n, c).args, i);
      }
  }

  /** u names an instance whose argument for slot s is at least d deep. */
  ghost predicate Holds(p: Project, view: string, u: TypeRef, n: NamedRef, s: Slot, d: nat) {
    && n in NamedRefs(u) && Target(p, view, n) == Some(s.host)
    && s.index < |n.args| && Depth(n.args[s.index]) >= d
  }

  ghost predicate Regular(p: Project) { Marked(p) && PlainParams(p) && DistinctParams(p) }

  /** A flow carries the argument of an instance into a type it reaches. */
  lemma FollowFlow(p: Project, view: string, u: TypeRef, n: NamedRef, f: Flow, d: nat) returns (w: TypeRef, m: NamedRef)
    requires Regular(p) && IsFlowIn(p, view, f) && Holds(p, view, u, n, f.from, d)
    ensures Step(p, view, u, w) && Holds(p, view, w, m, f.to, d + (if DeepFlow(f) then 1 else 0))
  {
    var k, h := f.host, f.site;
    var c := BodyScope(p, k, n.args, view);
    ScopeOwn(p, k, n.args, view);
    var i: nat :| LiveAt(p, k, h, i);
    assert HasMember(p, view, n, i);
    w, m := MemberType(p, view, n, i), SpellRef(p, h, c);
    PlainMember(p, k, i, n.args);
    SpelledHolds(p, Root(p.types[k].body[i]), c, h);
    SpelledTarget(p, k, h, n.args, view);
    ArgumentNests(p, view, k, h, n.args, c, f);
  }

  lemma PlainMember(p: Project, k: Key, i: nat, args: seq<TypeRef>)
    requires Marked(p) && PlainParams(p) && k in p.types && i < |p.types[k].body|
    ensures PlainIn(Root(p.types[k].body[i]), SubstMap(p.types[k].params, args))
  {
    var t, s := Root(p.types[k].body[i]), SubstMap(p.types[k].params, args);
    forall r | r in NamedRefs(t) && Bound(r, s) ensures r.args == [] {
      BodyRefsHold(p.types[k].body, i, r);
      var x := SubstMapFrom(p.types[k].params, args, r.parts[0]);
    }
  }

  lemma ArgumentNests(p: Project, view: string, k: Key, h: NamedRef, args: seq<TypeRef>, c: Scope, f: Flow)
    requires Regular(p) && IsFlowIn(p, view, f) && f.host == k && f.site == h && f.from.index < |args|
    requires OwnSubst(c) && c.subst == SubstMap(p.types[k].params, args)
    ensures Depth(Spell(p, h.args[f.to.index], c)) >= Depth(args[f.from.index]) + (if DeepFlow(f) then 1 else 0)
  {
    var a := h.args[f.to.index];
    forall r | r in NamedRefs(a) && Bound(r, c.subst) ensures r.args == [] {
      var i: nat :| LiveAt(p, k, h, i);
      NestedRefs(Root(p.types[k].body[i]), h, r, f.to.index);
      BodyRefsHold(p.types[k].body, i, r);
      var x := SubstMapFrom(p.types[k].params, args, r.parts[0]);
    }
    SubstMapAt(p.types[k].params, args, f.from.index);
    SpelledNests(p, a, c, f.param);
  }

  /** The slots for which a type that t reaches names an instance with an
      argument at least d deep. */
  ghost function Carried(p: Project, view: string, t: TypeRef, d: nat): iset<Slot> {
    iset s | CarriedTo(p, view, t, s, d)
  }

  ghost predicate CarriedTo(p: Project, view: string, t: TypeRef, s: Slot, d: nat) {
    exists w, m :: Reaches(p, view, t, w) && Holds(p, view, w, m, s, d)
  }

  lemma CarryOn(p: Project, view: string, t: TypeRef, f: Flow, d: nat)
    requires Regular(p) && IsFlowIn(p, view, f) && CarriedTo(p, view, t, f.from, d)
    ensures CarriedTo(p, view, t, f.to, d + (if DeepFlow(f) then 1 else 0))
  {
    var u, n :| Reaches(p, view, t, u) && Holds(p, view, u, n, f.from, d);
    var w, m := FollowFlow(p, view, u, n, f, d);
    ReachesOn(p, view, t, u, w);
  }

  lemma CarriedShallower(p: Project, view: string, t: TypeRef, s: Slot, d: nat, e: nat)
    requires CarriedTo(p, view, t, s, d) && e <= d
    ensures CarriedTo(p, view, t, s, e)
  {
    var w, m :| Reaches(p, view, t, w) && Holds(p, view, w, m, s, d);
    assert Holds(p, view, w, m, s, e);
  }

  /** Along the flows an argument gets no shallower. */
  lemma CarryAlong(p: Project, view: string, t: TypeRef, a: Slot, b: Slot, d: nat)
    requires Regular(p) && CarriedTo(p, view, t, a, d) && Leads(GraphIn(p, view), a, b)
    ensures CarriedTo(p, view, t, b, d)
  {
    var carried := Carried(p, view, t, d);
    forall x, y | x in carried && (x, y) in GraphIn(p, view) ensures y in carried {
      var f :| IsFlowIn(p, view, f) && f.from == x && f.to == y;
      CarryOn(p, view, t, f, d);
      CarriedShallower(p, view, t, y, d + (if DeepFlow(f) then 1 else 0), d);
    }
    Kept(GraphIn(p, view), a, b, carried);
  }

  /** A deepening flow on a cycle makes, from any instance of its host,
      instances deeper than any bound. */
  lemma EndlesslyDeep(p: Project, view: string, t: TypeRef, f: Flow, d: nat)
    requires Regular(p) && DeepCycle(p, view, f)
    requires CarriedTo(p, view, t, f.from, 0)
    ensures CarriedTo(p, view, t, f.from, d)
  {
    var depths := iset e: nat | CarriedTo(p, view, t, f.from, e);
    forall e: nat | e in depths ensures e + 1 in depths {
      CarryOn(p, view, t, f, e);
      CarryAlong(p, view, t, f.to, f.from, e + 1);
    }
    Climb(depths, d);
  }

  lemma {:induction false} Climb(depths: iset<nat>, d: nat)
    requires 0 in depths && forall e: nat :: e in depths ==> e + 1 in depths
    ensures d in depths
  {
    if d > 0 { Climb(depths, d - 1); }
  }

  ghost function Deepest(all: set<TypeRef>): (d: nat)
    ensures forall t :: t in all ==> Depth(t) <= d
  {
    if all == {} then 0 else
      var t :| t in all;
      var rest := Deepest(all - {t});
      if Depth(t) > rest then Depth(t) else rest
  }

  /** From an instance of the host of a deepening flow on a cycle, what is
      reached lies in no finite set. */
  lemma EndlessNotFinite(p: Project, view: string, t: TypeRef, n: NamedRef, f: Flow)
    requires Regular(p) && DeepCycle(p, view, f)
    requires Holds(p, view, t, n, f.from, 0)
    ensures !FinitelyMany(p, view, t)
  {
    ReachesSelf(p, view, t);
    forall all ensures !Covers(p, view, t, all) {
      EndlesslyDeep(p, view, t, f, Deepest(all) + 1);
      DeeperThan(p, view, t, f.from, Deepest(all) + 1, all);
    }
  }

  /** A set of types too shallow does not cover what t reaches. */
  lemma DeeperThan(p: Project, view: string, t: TypeRef, s: Slot, d: nat, all: set<TypeRef>)
    requires CarriedTo(p, view, t, s, d) && forall x :: x in all ==> Depth(x) < d
    ensures !Covers(p, view, t, all)
  {
    var w, m :| Reaches(p, view, t, w) && Holds(p, view, w, m, s, d);
    NestedDepth(w, m);
    ArgShallower(m.args, s.index);
  }

  /** Every type, as package view spells it, reaches finitely many. */
  ghost predicate ViewFinite(p: Project, view: string) { forall t :: FinitelyMany(p, view, t) }

  ghost predicate AlwaysFinite(p: Project) { forall view :: ViewFinite(p, view) }

  ghost predicate AlwaysSettled(p: Project) { forall view :: Settled(p, view) }

  lemma UnsettledNotFinite(p: Project, view: string, f: Flow)
    requires Regular(p) && DeepCycle(p, view, f)
    ensures !ViewFinite(p, view)
  {
    var t, n := SomeInstance(p, view, f.host);
    EndlessNotFinite(p, view, t, n, f);
  }

  /** A type that names an instance of k, spelled so that every package
      resolves it. */
  lemma SomeInstance(p: Project, view: string, k: Key) returns (t: TypeRef, n: NamedRef)
    requires k in p.types
    ensures n in NamedRefs(t) && Target(p, view, n) == Some(k) && |n.args| == |p.types[k].params|
  {
    var leaf := Named(NamedRef([""], false, []), 0, false);
    n := NamedRef([k.pkg, k.name], false, seq(|p.types[k].params|, _ => leaf));
    t := Named(n, 0, false);
    assert Key(k.pkg, k.name) == k;
  }

  /** For every package, captured names or not: each type reaches finitely
      many types exactly when no deepening flow the package sees lies on a
      cycle. */
  lemma FiniteIffSettled(p: Project, view: string)
    requires Regular(p)
    ensures Settled(p, view) <==> ViewFinite(p, view)
  {
    if Settled(p, view) {
      forall t ensures FinitelyMany(p, view, t) { SettledFinite(p, view, t); }
    } else {
      var f :| DeepCycle(p, view, f);
      UnsettledNotFinite(p, view, f);
    }
  }

  lemma AlwaysFiniteIffSettled(p: Project)
    requires Regular(p)
    ensures AlwaysSettled(p) <==> AlwaysFinite(p)
  {
    forall view ensures Settled(p, view) <==> ViewFinite(p, view) { FiniteIffSettled(p, view); }
  }

  // ---- What the search decides ----

  /** The search finds no endless flow. */
  ghost predicate Quiet(p: Project) { forall f :: !IsEndless(p, f) }

  lemma LiveLeads(p: Project, a: Slot, b: Slot)
    requires Leads(LiveGraph(p), a, b)
    ensures Leads(FlowGraph(p), a, b)
  {
    LeadsWider(LiveGraph(p), FlowGraph(p), a, b);
  }

  /** A quiet project is settled for every package that captures no name. */
  lemma QuietSettled(p: Project, view: string)
    requires Sound(p, view) && Quiet(p)
    ensures Settled(p, view)
  {
    FlowsAgree(p, view);
    forall f ensures !DeepCycle(p, view, f) {
      assert !IsEndless(p, f);
      if DeepCycle(p, view, f) { LiveLeads(p, f.to, f.from); }
    }
  }

  /** The site of g names another type for view than in its own package. */
  ghost predicate Strays(p: Project, view: string, g: Flow) {
    IsFlowIn(p, view, g) && ViewTarget(p, view, g.host, g.site) != Target(p, g.host.pkg, g.site)
  }

  lemma StaysIsFlow(p: Project, view: string, g: Flow)
    requires IsFlowIn(p, view, g) && !Strays(p, view, g)
    ensures IsFlow(p, g)
  {
    LiveRef(p, g.host, g.site);
  }

  /** A site strays where view declares a type under its bare name and the
      site's own package declares nothing. */
  lemma StrayCaptured(p: Project, view: string, g: Flow)
    requires Marked(p) && Strays(p, view, g)
    ensures g.host.pkg != view && |g.site.parts| == 1 && g.to.host == Key(view, g.site.parts[0])
    ensures !Declared(p, Key(g.host.pkg, g.site.parts[0]))
  {
    LiveRef(p, g.host, g.site);
  }

  /** f deepens on a cycle, as view sees it, that g lies on and strays from. */
  ghost predicate CapturedCycle(p: Project, view: string, f: Flow, g: Flow) {
    && DeepCycle(p, view, f) && Strays(p, view, g)
    && Leads(GraphIn(p, view), f.to, g.from) && Leads(GraphIn(p, view), g.to, f.from)
  }

  /** In a quiet project every deepening cycle a package sees runs through a
      site whose name the package captures. */
  lemma CaptureIsTheCause(p: Project, view: string, f: Flow) returns (g: Flow)
    requires Marked(p) && Quiet(p) && DeepCycle(p, view, f)
    ensures CapturedCycle(p, view, f, g)
    ensures g.host.pkg != view && |g.site.parts| == 1 && g.to.host == Key(view, g.site.parts[0])
    ensures !Declared(p, Key(g.host.pkg, g.site.parts[0]))
  {
    if Strays(p, view, f) {
      g := f;
      LeadsSelf(GraphIn(p, view), f.to);
    } else {
      g := StrayOnWay(p, view, f);
    }
    StrayCaptured(p, view, g);
  }

  /** The first stray flow on the way back of one that does not stray. */
  lemma StrayOnWay(p: Project, view: string, f: Flow) returns (g: Flow)
    requires Quiet(p) && DeepCycle(p, view, f) && !Strays(p, view, f)
    ensures CapturedCycle(p, view, f, g)
  {
    StaysIsFlow(p, view, f);
    assert !IsEndless(p, f);
    LeadsSelf(FlowGraph(p), f.to);
    var found := iset x | Leads(FlowGraph(p), f.to, x);
    var x, y := Exit(GraphIn(p, view), f.to, f.from, found);
    g :| IsFlowIn(p, view, g) && g.from == x && g.to == y;
    if !Strays(p, view, g) {
      StaysIsFlow(p, view, g);
      LeadsOn(FlowGraph(p), f.to, x, y);
    }
  }

  /** Silence of the search is right for a package exactly when no deepening
      cycle it sees runs through a name it captures. */
  lemma SilenceRightExactly(p: Project, view: string)
    requires Regular(p) && Quiet(p)
    ensures ViewFinite(p, view) <==> !Captures(p, view)
  {
    FiniteIffSettled(p, view);
    if f :| DeepCycle(p, view, f) { var g := CaptureIsTheCause(p, view, f); }
    if f, g :| CapturedCycle(p, view, f, g) { assert DeepCycle(p, view, f); }
  }

  /** A deepening cycle that view sees runs through a name it captures. */
  ghost predicate Captures(p: Project, view: string) { exists f, g :: CapturedCycle(p, view, f, g) }

  /** The search's answer is right exactly when, if it is silent, no package
      sees a deepening cycle through a captured name, and, if it is not, some
      package sees a deepening cycle. */
  lemma EndlessRightExactly(p: Project)
    requires Regular(p)
    ensures (Quiet(p) <==> AlwaysFinite(p)) <==>
      if Quiet(p) then forall view :: !Captures(p, view) else exists view :: !Settled(p, view)
  {
    AlwaysFiniteIffSettled(p);
    if Quiet(p) {
      forall view ensures ViewFinite(p, view) <==> !Captures(p, view) { SilenceRightExactly(p, view); }
    }
  }

  /** No package captures a name. */
  ghost predicate Uncaptured(p: Project) { forall view :: WellScoped(p, view) }

  /** An endless flow that does more than add `?`, on a cycle of sites that
      expand. */
  ghost predicate TrulyEndless(p: Project, f: Flow) {
    IsLiveFlow(p, f) && DeepFlow(f) && Leads(LiveGraph(p), f.to, f.from)
  }

  lemma TrulyIsEndless(p: Project, f: Flow)
    requires TrulyEndless(p, f)
    ensures IsEndless(p, f)
  {
    LiveLeads(p, f.to, f.from);
  }

  /** Without captured names the answer is right exactly when, if the search
      finds an endless flow, it finds one that deepens and does so without the
      help of a mixin that names no type. */
  lemma UncapturedRightExactly(p: Project)
    requires Regular(p) && Uncaptured(p)
    ensures (Quiet(p) <==> AlwaysFinite(p)) <==> (!Quiet(p) ==> exists f :: IsEndless(p, f) && TrulyEndless(p, f))
  {
    AlwaysFiniteIffSettled(p);
    UncapturedSettled(p);
    if f :| TrulyEndless(p, f) { TrulyIsEndless(p, f); }
  }

  lemma UncapturedSettled(p: Project)
    requires Marked(p) && Uncaptured(p)
    ensures AlwaysSettled(p) <==> forall f :: !TrulyEndless(p, f)
  {
    forall view ensures Settled(p, view) <==> forall f :: !TrulyEndless(p, f) { SettledTruly(p, view); }
    assert AlwaysSettled(p) ==> Settled(p, "");
  }

  lemma SettledTruly(p: Project, view: string)
    requires Marked(p) && Uncaptured(p)
    ensures Settled(p, view) <==> forall f :: !TrulyEndless(p, f)
  {
    assert WellScoped(p, view);
    FlowsAgree(p, view);
    forall f ensures DeepCycle(p, view, f) <==> TrulyEndless(p, f) {}
  }

  /** No body passes an optional argument. */
  ghost predicate NoOptionalArgs(p: Project) {
    forall k, n, i :: k in p.types && n in BodyRefs(p.types[k].body) && 0 <= i < |n.args| ==> !n.args[i].optional
  }

  /** Every mixin names a type. */
  ghost predicate AllExpand(p: Project) {
    forall k, i :: k in p.types && 0 <= i < |p.types[k].body| ==> Expands(p, k.pkg, p.types[k].body[i])
  }

  lemma AllLive(p: Project)
    requires AllExpand(p)
    ensures forall f :: IsLiveFlow(p, f) <==> IsFlow(p, f)
    ensures LiveGraph(p) == FlowGraph(p)
  {
    forall f | IsFlow(p, f) ensures Live(p, f.host, f.site) {
      var i := BodyRefsFrom(p.types[f.host].body, f.site);
      assert LiveAt(p, f.host, f.site, i);
    }
  }

  /** Without captured names, optional arguments and mixins that name no type
      the search decides finiteness. */
  lemma EndlessDecidesFiniteness(p: Project)
    requires Regular(p) && Uncaptured(p) && NoOptionalArgs(p) && AllExpand(p)
    ensures Quiet(p) <==> AlwaysFinite(p)
  {
    UncapturedRightExactly(p);
    AllLive(p);
    forall f | IsEndless(p, f) ensures TrulyEndless(p, f) { assert IsFlow(p, f) && DeepFlow(f) == f.grows; }
    if f :| IsEndless(p, f) { assert TrulyEndless(p, f); }
  }

  /** With optional arguments too, a quiet project is finite for every package
      that captures no name. */
  lemma NoEndlessFinite(p: Project, view: string, t: TypeRef)
    requires Sound(p, view) && Quiet(p)
    ensures FinitelyMany(p, view, t)
  {
    QuietSettled(p, view);
    SettledFinite(p, view, t);
  }

  // ---- Where the decision and the instances part ----

  function Param(q: string): NamedRef { NamedRef([q], true, []) }

  /** `Name<arg>`, as the package declaring Name spells it. */
  function Of(name: string, arg: TypeRef): NamedRef { NamedRef([name], false, [arg]) }

  /** `pkg.Name<arg>`. */
  function OfQualified(k: Key, arg: TypeRef): NamedRef { NamedRef([k.pkg, k.name], false, [arg]) }

  function Plain(n: NamedRef): TypeRef { Named(n, 0, false) }

  /** A generic type of one parameter and one field. */
  function OneField(q: string, site: NamedRef): TypeDecl { TypeDecl([q], [Field("f", Plain(site))]) }

  lemma OneFieldRefs(q: string, site: NamedRef, dims: nat, optional: bool)
    requires site.args == [Named(Param(q), dims, optional)]
    ensures BodyRefs(OneField(q, site).body) == [Param(q), site]
    ensures Mentions(site.args[0], q)
  {
    var body := OneField(q, site).body;
    assert body[..0] == [];
    assert NamedRefs(Root(body[0])) == ArgRefs(site.args) + [site];
    assert site.args[1..] == [];
    assert Param(q) in NamedRefs(site.args[0]);
  }

  /** `type Box<T> { f Box<T?> }`. */
  function OptionalLoop(box: Key, q: string): Project {
    Project(map[box := OneField(q, Of(box.name, Named(Param(q), 0, true)))], {})
  }

  lemma OptionalLoopFlows(box: Key, q: string, f: Flow)
    requires q != box.name && IsFlow(OptionalLoop(box, q), f)
    ensures f.host == box && f.site == Of(box.name, Named(Param(q), 0, true)) && f.to.index == 0 && f.param == q
  {
    OneFieldRefs(q, Of(box.name, Named(Param(q), 0, true)), 0, true);
  }

  lemma OptionalLoopSound(box: Key, q: string, view: string)
    requires q != box.name
    ensures Sound(OptionalLoop(box, q), view)
  {
    OneFieldRefs(q, Of(box.name, Named(Param(q), 0, true)), 0, true);
  }

  /** An optional argument repeated on a cycle is reported endless, although
      every type still reaches finitely many: `?` does not add up. */
  lemma OptionalLoopFinite(box: Key, q: string)
    requires q != box.name
    ensures exists f :: IsEndless(OptionalLoop(box, q), f)
    ensures AlwaysFinite(OptionalLoop(box, q))
  {
    var p, site := OptionalLoop(box, q), Of(box.name, Named(Param(q), 0, true));
    OneFieldRefs(q, site, 0, true);
    var f := Flow(box, site, q, Slot(box, 0), Slot(box, 0), true);
    assert Key(box.pkg, box.name) == box;
    LeadsSelf(FlowGraph(p), f.to);
    assert IsEndless(p, f);
    forall f | IsFlow(p, f) ensures !DeepFlow(f) { OptionalLoopFlows(box, q, f); }
    forall view ensures ViewFinite(p, view) {
      OptionalLoopSound(box, q, view);
      FlowsAgree(p, view);
      forall t ensures FinitelyMany(p, view, t) { SettledFinite(p, view, t); }
    }
  }

  /** `type Box<T> { f Box<T[]> }`. */
  function ArrayLoop(box: Key, q: string): Project {
    Project(map[box := OneField(q, Of(box.name, Named(Param(q), 1, false)))], {})
  }

  /** An array argument repeated on a cycle is reported endless, and rightly:
      a regular project with types that reach infinitely many. */
  lemma ArrayLoopNotFinite(box: Key, q: string)
    requires q != box.name
    ensures Regular(ArrayLoop(box, q)) && !AlwaysFinite(ArrayLoop(box, q))
    ensures exists f :: IsEndless(ArrayLoop(box, q), f) && DeepFlow(f)
  {
    var p, site := ArrayLoop(box, q), Of(box.name, Named(Param(q), 1, false));
    OneFieldRefs(q, site, 1, false);
    var f := Flow(box, site, q, Slot(box, 0), Slot(box, 0), true);
    assert Key(box.pkg, box.name) == box;
    LeadsSelf(FlowGraph(p), f.to);
    assert IsEndless(p, f) && DeepFlow(f);
    ArrayLoopRegular(box, q);
    assert Uncaptured(p) by { forall view ensures WellScoped(p, view) { ArrayLoopScoped(box, q, view); } }
    AllLive(p);
    UncapturedSettled(p);
    assert TrulyEndless(p, f);
    AlwaysFiniteIffSettled(p);
  }

  lemma ArrayLoopScoped(box: Key, q: string, view: string)
    requires q != box.name
    ensures WellScoped(ArrayLoop(box, q), view)
  {
    OneFieldRefs(q, Of(box.name, Named(Param(q), 1, false)), 1, false);
  }

  lemma ArrayLoopRegular(box: Key, q: string)
    requires q != box.name
    ensures Regular(ArrayLoop(box, q))
  {
    OneFieldRefs(q, Of(box.name, Named(Param(q), 1, false)), 1, false);
  }

  /** Package a's `type Box<T> { f X<T> }`, where a declares no X, beside
      package v's `type X<U> { f a.Box<U[]> }`. */
  function Captured(box: Key, x: Key, q: string): Project {
    Project(map[box := OneField(q, Of(x.name, Plain(Param(q)))),
                x := OneField(q, OfQualified(box, Named(Param(q), 1, false)))], {})
  }

  /** The names of the two types and of their parameter differ. */
  predicate Apart(box: Key, x: Key, q: string) {
    box.pkg != x.pkg && box.name != x.name && q != x.name && q != box.name
  }

  /** What the two packages declare. */
  ghost predicate Lookups(p: Project, box: Key, x: Key, q: string) {
    && box in p.types && p.types[box] == OneField(q, Of(x.name, Plain(Param(q))))
    && x in p.types && p.types[x] == OneField(q, OfQualified(box, Named(Param(q), 1, false)))
    && !Declared(p, Key(box.pkg, x.name))
  }

  lemma CapturedLookups(box: Key, x: Key, q: string)
    requires Apart(box, x, q)
    ensures Lookups(Captured(box, x, q), box, x, q)
  {
  }

  lemma UnfoldsX(p: Project, box: Key, x: Key, q: string, t: TypeRef)
    requires Apart(box, x, q) && Lookups(p, box, x, q)
    ensures Step(p, x.pkg, Plain(Of(x.name, t)), Plain(OfQualified(box, Suffixed(t, 1, false))))
  {
    var n := Of(x.name, t);
    assert Key(x.pkg, x.name) == x && Target(p, x.pkg, n) == Some(x);
    var c := BodyScope(p, x, n.args, x.pkg);
    SubstMapAt([q], n.args, 0);
    ScopeOwn(p, x, n.args, x.pkg);
    SpellNamed(p, OfQualified(box, Named(Param(q), 1, false)), 0, false, c);
    SpellNamed(p, Param(q), 1, false, c);
    assert MemberType(p, x.pkg, n, 0) == Plain(OfQualified(box, Suffixed(t, 1, false)));
    assert n in NamedRefs(Plain(n)) && HasMember(p, x.pkg, n, 0);
  }

  lemma UnfoldsBox(p: Project, box: Key, x: Key, q: string, t: TypeRef)
    requires Apart(box, x, q) && Lookups(p, box, x, q)
    ensures Step(p, x.pkg, Plain(OfQualified(box, t)), Plain(Of(x.name, t)))
  {
    var n := OfQualified(box, t);
    assert Key(box.pkg, box.name) == box && Target(p, x.pkg, n) == Some(box);
    var c := BodyScope(p, box, n.args, x.pkg);
    SubstMapAt([q], n.args, 0);
    ScopeOwn(p, box, n.args, x.pkg);
    SpellUndeclared(p, x.name, q, t, c);
    assert MemberType(p, x.pkg, n, 0) == Plain(Of(x.name, t));
    assert n in NamedRefs(Plain(n)) && HasMember(p, x.pkg, n, 0);
  }

  /** A generic name its package does not declare is spelled as it stands. */
  lemma SpellUndeclared(p: Project, name: string, q: string, t: TypeRef, c: Scope)
    requires OwnSubst(c) && q in c.subst && c.subst[q] == t && name !in c.subst && !Declared(p, Key(c.home, name))
    ensures Spell(p, Plain(Of(name, Plain(Param(q)))), c) == Plain(Of(name, t))
  {
    var n := Of(name, Plain(Param(q)));
    SpellNamed(p, n, 0, false, c);
    SpellNamed(p, Param(q), 0, false, c);
    assert SpellRef(p, n, c).args == [t];
  }

  lemma {:induction false} CapturedDeepens(box: Key, x: Key, q: string, t: TypeRef, d: nat) returns (u: TypeRef)
    requires Apart(box, x, q)
    ensures Reaches(Captured(box, x, q), x.pkg, Plain(Of(x.name, t)), Plain(Of(x.name, u))) && Depth(u) >= d
  {
    var p, start := Captured(box, x, q), Plain(Of(x.name, t));
    if d == 0 {
      ReachesSelf(p, x.pkg, start);
      u := t;
    } else {
      var w := CapturedDeepens(box, x, q, t, d - 1);
      u := Suffixed(w, 1, false);
      CapturedLookups(box, x, q);
      UnfoldsX(p, box, x, q, w);
      ReachesOn(p, x.pkg, start, Plain(Of(x.name, w)), Plain(OfQualified(box, u)));
      UnfoldsBox(p, box, x, q, u);
      ReachesOn(p, x.pkg, start, Plain(OfQualified(box, u)), Plain(Of(x.name, u)));
    }
  }

  lemma CapturedFlows(box: Key, x: Key, q: string, f: Flow)
    requires Apart(box, x, q) && IsFlow(Captured(box, x, q), f)
    ensures f.from.host == x && f.to == Slot(box, 0)
  {
    OneFieldRefs(q, Of(x.name, Plain(Param(q))), 0, false);
    OneFieldRefs(q, OfQualified(box, Named(Param(q), 1, false)), 1, false);
  }

  lemma CapturedNotEndless(box: Key, x: Key, q: string, f: Flow)
    requires Apart(box, x, q)
    ensures !IsEndless(Captured(box, x, q), f)
  {
    var p := Captured(box, x, q);
    var g := FlowGraph(p);
    if IsEndless(p, f) {
      forall f' | IsFlow(p, f') ensures f'.from.host == x && f'.to == Slot(box, 0) { CapturedFlows(box, x, q, f'); }
      Kept(g, f.to, f.from, iset{Slot(box, 0)});
    }
  }

  /** A name its own package does not declare is captured by the package that
      spells the body: no flow is endless, yet the types reached from X<t>
      there deepen for ever. */
  lemma CapturedNotFinite(box: Key, x: Key, q: string, t: TypeRef)
    requires Apart(box, x, q)
    ensures Quiet(Captured(box, x, q))
    ensures !FinitelyMany(Captured(box, x, q), x.pkg, Plain(Of(x.name, t)))
  {
    var p := Captured(box, x, q);
    forall f ensures !IsEndless(p, f) { CapturedNotEndless(box, x, q, f); }
    var start := Plain(Of(x.name, t));
    forall all ensures !Covers(p, x.pkg, start, all) {
      var u := CapturedDeepens(box, x, q, t, Deepest(all) + 1);
      ArgShallower([u], 0);
    }
  }

  // ---- Mixins that name no type where they stand ----

  /** A generic type of one parameter and one mixin. */
  function OneMixin(q: string, mx: NamedRef): TypeDecl { TypeDecl([q], [Mixin(mx)]) }

  lemma OneMixinRefs(q: string, mx: NamedRef)
    ensures BodyRefs(OneMixin(q, mx).body) == NamedRefs(Plain(mx))
  {
    var body := OneMixin(q, mx).body;
    assert body[..0] == [];
  }

  /** A mixin that names no type brings nothing to life. */
  lemma DeadMixin(p: Project, k: Key, q: string, mx: NamedRef, n: NamedRef)
    requires k in p.types && p.types[k] == OneMixin(q, mx) && Target(p, k.pkg, mx).None?
    ensures !Live(p, k, n)
  {
  }

  /** Package a's `type Box<T> { X<T> }`, where a declares no X, beside package
      v's `type X<T> { f a.Box<T[]> }`. */
  function CapturedMixin(box: Key, x: Key, q: string): Project {
    Project(map[box := OneMixin(q, Of(x.name, Plain(Param(q)))),
                x := OneField(q, OfQualified(box, Named(Param(q), 1, false)))], {})
  }

  /** What the two packages declare. */
  ghost predicate MixinLookups(p: Project, box: Key, x: Key, q: string) {
    && box in p.types && p.types[box] == OneMixin(q, Of(x.name, Plain(Param(q))))
    && x in p.types && p.types[x] == OneField(q, OfQualified(box, Named(Param(q), 1, false)))
    && p.types.Keys == {box, x} && Target(p, box.pkg, Of(x.name, Plain(Param(q)))).None?
  }

  lemma CapturedMixinLookups(box: Key, x: Key, q: string)
    requires Apart(box, x, q)
    ensures MixinLookups(CapturedMixin(box, x, q), box, x, q)
  {
  }

  /** The references of the two bodies. */
  lemma CapturedMixinRefs(p: Project, box: Key, x: Key, q: string, k: Key)
    requires MixinLookups(p, box, x, q) && k in p.types
    ensures BodyRefs(p.types[k].body) ==
      if k == box then [Param(q), Of(x.name, Plain(Param(q)))]
      else [Param(q), OfQualified(box, Named(Param(q), 1, false))]
  {
    var mx := Of(x.name, Plain(Param(q)));
    if k == box {
      OneMixinRefs(q, mx);
      OneFieldRefs(q, mx, 0, false);
      assert mx.args[1..] == [];
    } else {
      OneFieldRefs(q, OfQualified(box, Named(Param(q), 1, false)), 1, false);
    }
  }

  lemma CapturedMixinRegular(p: Project, box: Key, x: Key, q: string)
    requires Apart(box, x, q) && MixinLookups(p, box, x, q)
    ensures Regular(p)
  {
    forall k, n | k in p.types && n in BodyRefs(p.types[k].body)
      ensures (n.param <==> |n.parts| == 1 && n.parts[0] in p.types[k].params) && (n.param ==> n.args == [])
    {
      CapturedMixinRefs(p, box, x, q, k);
    }
  }

  /** The flows the search finds all lead from X to Box. */
  lemma CapturedMixinFlows(p: Project, box: Key, x: Key, q: string, f: Flow)
    requires Apart(box, x, q) && MixinLookups(p, box, x, q) && IsFlow(p, f)
    ensures f.from.host == x && f.to == Slot(box, 0)
  {
    CapturedMixinRefs(p, box, x, q, f.host);
  }

  /** So do those any package sees. */
  lemma CapturedMixinSeen(p: Project, box: Key, x: Key, q: string, view: string, f: Flow)
    requires Apart(box, x, q) && MixinLookups(p, box, x, q) && IsFlowIn(p, view, f)
    ensures f.from.host == x && f.to == Slot(box, 0)
  {
    LiveRef(p, f.host, f.site);
    if f.host == box {
      DeadMixin(p, box, q, Of(x.name, Plain(Param(q))), f.site);
    } else {
      OneFieldRefs(q, OfQualified(box, Named(Param(q), 1, false)), 1, false);
    }
  }

  /** A mixin is looked up in its own package, so no package captures its name:
      silence is right here, although v declares the name a's body lacks. */
  lemma CapturedMixinFinite(box: Key, x: Key, q: string)
    requires Apart(box, x, q)
    ensures Regular(CapturedMixin(box, x, q)) && Quiet(CapturedMixin(box, x, q))
    ensures AlwaysFinite(CapturedMixin(box, x, q))
  {
    var p := CapturedMixin(box, x, q);
    CapturedMixinLookups(box, x, q);
    CapturedMixinRegular(p, box, x, q);
    CapturedMixinQuiet(p, box, x, q);
    AlwaysFiniteIffSettled(p);
    forall view ensures Settled(p, view) { CapturedMixinSettled(p, box, x, q, view); }
  }

  lemma CapturedMixinQuiet(p: Project, box: Key, x: Key, q: string)
    requires Apart(box, x, q) && MixinLookups(p, box, x, q)
    ensures Quiet(p)
  {
    forall g | IsFlow(p, g) ensures g.from.host == x && g.to == Slot(box, 0) { CapturedMixinFlows(p, box, x, q, g); }
    forall f ensures !IsEndless(p, f) {
      if IsEndless(p, f) { Kept(FlowGraph(p), f.to, f.from, iset{Slot(box, 0)}); }
    }
  }

  lemma CapturedMixinSettled(p: Project, box: Key, x: Key, q: string, view: string)
    requires Apart(box, x, q) && MixinLookups(p, box, x, q)
    ensures Settled(p, view)
  {
    forall g | IsFlowIn(p, view, g) ensures g.from.host == x && g.to == Slot(box, 0) {
      CapturedMixinSeen(p, box, x, q, view, g);
    }
    forall f ensures !DeepCycle(p, view, f) {
      if DeepCycle(p, view, f) { Kept(GraphIn(p, view), f.to, f.from, iset{Slot(box, 0)}); }
    }
  }

  /** `type Box<T> { Nope<Box<T[]>> }`, where no Nope is declared. */
  function NopeMixin(box: Key, nope: string, q: string): Project {
    Project(map[box := OneMixin(q, Of(nope, Plain(Of(box.name, Named(Param(q), 1, false)))))], {})
  }

  /** An argument of a mixin that names no type is followed by the search and by
      nothing else: reported endless, although every type reaches finitely
      many. */
  lemma NopeMixinFinite(box: Key, nope: string, q: string)
    requires nope != box.name && q != box.name && q != nope
    ensures Regular(NopeMixin(box, nope, q)) && Uncaptured(NopeMixin(box, nope, q))
    ensures exists f :: IsEndless(NopeMixin(box, nope, q), f) && DeepFlow(f)
    ensures AlwaysFinite(NopeMixin(box, nope, q))
  {
    var p, site := NopeMixin(box, nope, q), Of(box.name, Named(Param(q), 1, false));
    NopeRegular(box, nope, q);
    NopeEndless(box, nope, q);
    forall n ensures !Live(p, box, n) { DeadMixin(p, box, q, Of(nope, Plain(site)), n); }
    AlwaysFiniteIffSettled(p);
    forall view, f ensures !DeepCycle(p, view, f) {}
  }

  lemma NopeRegular(box: Key, nope: string, q: string)
    requires nope != box.name && q != box.name && q != nope
    ensures Regular(NopeMixin(box, nope, q))
  {
    NopeRefs(box, nope, q);
  }

  lemma NopeEndless(box: Key, nope: string, q: string)
    requires nope != box.name && q != box.name && q != nope
    ensures exists f :: IsEndless(NopeMixin(box, nope, q), f) && DeepFlow(f)
  {
    var p, site := NopeMixin(box, nope, q), Of(box.name, Named(Param(q), 1, false));
    NopeRefs(box, nope, q);
    var f := Flow(box, site, q, Slot(box, 0), Slot(box, 0), true);
    assert Key(box.pkg, box.name) == box;
    LeadsSelf(FlowGraph(p), f.to);
    assert IsEndless(p, f) && DeepFlow(f);
  }

  lemma NopeRefs(box: Key, nope: string, q: string)
    ensures var site := Of(box.name, Named(Param(q), 1, false)); var mx := Of(nope, Plain(site));
      BodyRefs(OneMixin(q, mx).body) == [Param(q), site, mx] && Mentions(site.args[0], q)
  {
    var site := Of(box.name, Named(Param(q), 1, false));
    var mx := Of(nope, Plain(site));
    OneMixinRefs(q, mx);
    OneFieldRefs(q, site, 1, false);
    assert NamedRefs(Plain(site)) == ArgRefs(site.args) + [site] && site.args[1..] == [];
    assert mx.args[1..] == [];
  }

  /** `type Box<T> { Box<T[]> }`. */
  function MixinLoop(box: Key, q: string): Project {
    Project(map[box := OneMixin(q, Of(box.name, Named(Param(q), 1, false)))], {})
  }

  lemma MixinLoopRefs(box: Key, q: string)
    ensures var mx := Of(box.name, Named(Param(q), 1, false));
      BodyRefs(OneMixin(q, mx).body) == [Param(q), mx] && Mentions(mx.args[0], q)
  {
    var mx := Of(box.name, Named(Param(q), 1, false));
    OneMixinRefs(q, mx);
    OneFieldRefs(q, mx, 1, false);
    assert mx.args[1..] == [];
  }

  /** A deepening flow from a slot to itself makes a project endless. */
  lemma LoopNotFinite(p: Project, f: Flow)
    requires Regular(p) && Uncaptured(p) && AllExpand(p) && IsFlow(p, f) && DeepFlow(f) && f.to == f.from
    ensures !Quiet(p) && !AlwaysFinite(p)
  {
    AllLive(p);
    LeadsSelf(FlowGraph(p), f.to);
    assert TrulyEndless(p, f) && IsEndless(p, f);
    UncapturedSettled(p);
    AlwaysFiniteIffSettled(p);
  }

  lemma MixinLoopRegular(box: Key, q: string)
    requires q != box.name
    ensures Regular(MixinLoop(box, q)) && Uncaptured(MixinLoop(box, q)) && AllExpand(MixinLoop(box, q))
  {
    var p := MixinLoop(box, q);
    MixinLoopRefs(box, q);
    assert Key(box.pkg, box.name) == box;
    forall n | Live(p, box, n) ensures n in BodyRefs(p.types[box].body) { LiveRef(p, box, n); }
  }

  /** A type that embeds a larger instance of itself is reported, and needs ever
      larger instances. */
  lemma MixinLoopNotFinite(box: Key, q: string)
    requires q != box.name
    ensures Regular(MixinLoop(box, q)) && !Quiet(MixinLoop(box, q)) && !AlwaysFinite(MixinLoop(box, q))
  {
    var p, mx := MixinLoop(box, q), Of(box.name, Named(Param(q), 1, false));
    MixinLoopRefs(box, q);
    assert Key(box.pkg, box.name) == box && Target(p, box.pkg, mx) == Some(box);
    var f := Flow(box, mx, q, Slot(box, 0), Slot(box, 0), true);
    assert IsFlow(p, f);
    MixinLoopRegular(box, q);
    LoopNotFinite(p, f);
  }
}
