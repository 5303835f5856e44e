/** The walk through the struct instances a type reaches. */
module Walk {
  import opened Ast
  import opened Spelling
  import opened Paths
  import opened TypeParts
  import opened Ways
  import opened Instantiation
  import opened Boundedness
  import opened Finiteness
  import opened Divergence
  import opened Flatten
  import opened Promotion
  import opened SeenKeys

  /** The fields of the instance n names, mixins expanded. */
  function FieldsOf(p: Project, view: string, n: NamedRef): seq<FlatField>
    requires Target(p, view, n).Some?
  {
    var k := Target(p, view, n).value;
    FlattenFields(p, p.types[k].body, BodyScope(p, k, n.args, view)).fields
  }

  // ---- What the fields of an instance reach, their instance reaches ----

  lemma MixinMember(p: Project, view: string, n: NamedRef, i: nat) returns (m: NamedRef)
    requires Marked(p) && HasMember(p, view, n, i)
    requires var k := Target(p, view, n).value;
      var mx := p.types[k].body[i]; mx.Mixin? && Target(p, k.pkg, mx.ref).Some?
    ensures var k := Target(p, view, n).value; var mx := p.types[k].body[i].ref;
      && m in NamedRefs(MemberType(p, view, n, i)) && Target(p, view, m) == Target(p, k.pkg, mx)
      && BodyScope(p, Target(p, view, m).value, m.args, view)
         == MixinScope(p, Target(p, k.pkg, mx).value, mx, BodyScope(p, k, n.args, view))
  {
    var k := Target(p, view, n).value;
    var mx := p.types[k].body[i].ref;
    var c := BodyScope(p, k, n.args, view);
    ScopeOwn(p, k, n.args, view);
    assert mx in NamedRefs(Root(p.types[k].body[i]));
    BodyRefsHold(p.types[k].body, i, mx);
    assert !Bound(mx, c.subst);
    SpellNamed(p, mx, 0, false, c);
    SpelledTarget(p, k, mx, n.args, view);
    m := SpellRef(p, mx, c);
  }

  /** The body of an instance that n, in a type start reaches, names. */
  ghost predicate BodyOf(p: Project, view: string, start: TypeRef, a: Site, t: TypeRef, n: NamedRef) {
    && Reaches(p, view, start, t) && n in NamedRefs(t) && Target(p, view, n).Some?
    && var k := Target(p, view, n).value; a == Site(p.types[k].body, BodyScope(p, k, n.args, view))
  }

  ghost predicate Instantiated(p: Project, view: string, start: TypeRef, a: Site) {
    exists t, n :: BodyOf(p, view, start, a, t, n)
  }

  lemma MemberReached(p: Project, view: string, start: TypeRef, a: Site, t: TypeRef, n: NamedRef, i: nat)
    requires BodyOf(p, view, start, a, t, n) && i < |a.body| && Expands(p, a.scope.home, a.body[i])
    ensures HasMember(p, view, n, i) && Reaches(p, view, start, MemberType(p, view, n, i))
  {
    assert HasMember(p, view, n, i);
    assert Step(p, view, t, MemberType(p, view, n, i));
    ReachesOn(p, view, start, t, MemberType(p, view, n, i));
  }

  /** A mixin of an instance's body stands for the body of an instance. */
  lemma EmbeddedReached(p: Project, view: string, start: TypeRef, a: Site, b: Site)
    requires Marked(p) && Instantiated(p, view, start, a) && Embeds(p, a, b)
    ensures Instantiated(p, view, start, b)
  {
    var t, n :| BodyOf(p, view, start, a, t, n);
    var i :| 0 <= i < |a.body| && EmbedsAt(p, a, i, b);
    MemberReached(p, view, start, a, t, n, i);
    var m := MixinMember(p, view, n, i);
    assert BodyOf(p, view, start, b, MemberType(p, view, n, i), m);
  }

  lemma SitesReached(p: Project, view: string, start: TypeRef, a: Site, b: Site)
    requires Marked(p) && Instantiated(p, view, start, a) && Leads(Embeddings(p), a, b)
    ensures Instantiated(p, view, start, b)
  {
    var reached := iset x | Instantiated(p, view, start, x);
    forall x, y | x in reached && (x, y) in Embeddings(p) ensures y in reached {
      EmbeddedReached(p, view, start, x, y);
    }
    Kept(Embeddings(p), a, b, reached);
  }

  lemma FieldReached(p: Project, view: string, start: TypeRef, a: Site, ff: FlatField)
    requires Instantiated(p, view, start, a) && SpelledAt(p, a, ff)
    ensures Reaches(p, view, start, ff.typ)
  {
    var t, n :| BodyOf(p, view, start, a, t, n);
    var i :| 0 <= i < |a.body| && a.body[i].Field? && ff.typ == Spell(p, a.body[i].typ, a.scope);
    MemberReached(p, view, start, a, t, n, i);
  }

  lemma UnderReached(p: Project, view: string, start: TypeRef, a: Site, ff: FlatField)
    requires Marked(p) && Instantiated(p, view, start, a) && SpelledUnder(p, a, ff)
    ensures Reaches(p, view, start, ff.typ)
  {
    var b :| Leads(Embeddings(p), a, b) && SpelledAt(p, b, ff);
    SitesReached(p, view, start, a, b);
    FieldReached(p, view, start, b, ff);
  }

  /** Every field of a flattened instance has a type the instance reaches. */
  lemma FieldsReached(p: Project, view: string, start: TypeRef, t: TypeRef, n: NamedRef, ff: FlatField)
    requires Marked(p) && Reaches(p, view, start, t) && n in NamedRefs(t) && Target(p, view, n).Some?
    requires ff in FieldsOf(p, view, n)
    ensures Reaches(p, view, start, ff.typ)
  {
    var k := Target(p, view, n).value;
    var a := Site(p.types[k].body, BodyScope(p, k, n.args, view));
    assert BodyOf(p, view, start, a, t, n);
    FieldsSpelled(p, a.body, a.scope, ff);
    UnderReached(p, view, start, a, ff);
  }

  /** A type that embeds a larger instance of itself needs ever larger ones, but
      no walk comes to them: a flattening expands it once and finds no field. */
  lemma MixinLoopHasNoFields(box: Key, q: string, view: string, n: NamedRef)
    requires Target(MixinLoop(box, q), view, n) == Some(box)
    ensures FieldsOf(MixinLoop(box, q), view, n) == []
  {
    var p := MixinLoop(box, q);
    var body := p.types[box].body;
    assert body[..0] == [] && Key(box.pkg, box.name) == box;
    forall c: Scope, seen | c.home == box.pkg && box in seen ensures Level(p, body, c, seen).fields == [] {
      assert Level(p, body[..0], c, seen) == Flat([], [], false);
    }
    assert Level(p, body[..0], BodyScope(p, box, n.args, view), {}) == Flat([], [], false);
  }

  // ---- The instances reached through refused fields ----

  type Hit = FlatField -> bool

  predicate IsInstance(p: Project, view: string, n: NamedRef) { Target(p, view, n).Some? }

  /** m is an instance below a field of n that hit refuses. */
  ghost predicate Below(p: Project, view: string, hit: Hit, n: NamedRef, m: NamedRef) {
    && IsInstance(p, view, n) && IsInstance(p, view, m)
    && exists ff :: ff in FieldsOf(p, view, n) && !hit(ff) && BuiltOf(ff.typ, m)
  }

  ghost function Descents(p: Project, view: string, hit: Hit): iset<(NamedRef, NamedRef)> {
    iset n, m | Below(p, view, hit, n, m) :: (n, m)
  }

  /** n is an instance t is built of, or one below the refused fields of one. */
  ghost predicate Walked(p: Project, view: string, hit: Hit, t: TypeRef, n: NamedRef) {
    exists top :: BuiltOf(t, top) && IsInstance(p, view, top) && Leads(Descents(p, view, hit), top, n)
  }

  lemma WalkedStart(p: Project, view: string, hit: Hit, t: TypeRef, n: NamedRef)
    requires BuiltOf(t, n) && IsInstance(p, view, n)
    ensures Walked(p, view, hit, t, n)
  {
    LeadsSelf(Descents(p, view, hit), n);
  }

  /** What is walked from a refused field of n is walked from where n is. */
  lemma WalkedUnder(p: Project, view: string, hit: Hit, t: TypeRef, n: NamedRef, ff: FlatField, m: NamedRef)
    requires BuiltOf(t, n) && IsInstance(p, view, n) && ff in FieldsOf(p, view, n) && !hit(ff)
    requires Walked(p, view, hit, ff.typ, m)
    ensures Walked(p, view, hit, t, m)
  {
    var top :| BuiltOf(ff.typ, top) && IsInstance(p, view, top) && Leads(Descents(p, view, hit), top, m);
    assert Below(p, view, hit, n, top);
    LeadsUnder(Descents(p, view, hit), n, top, m);
  }

  // ---- The walk ----

  type Visit = (NamedRef, FlatField)

  /** The visits of an instance's accepted fields, in order. */
  function Accepted(n: NamedRef, fields: seq<FlatField>, hit: Hit): seq<Visit> {
    if fields == [] then [] else
      var last := |fields| - 1;
      Accepted(n, fields[..last], hit) + if hit(fields[last]) then [(n, fields[last])] else []
  }

  lemma AcceptedMore(n: NamedRef, fields: seq<FlatField>, j: nat, hit: Hit, before: seq<Visit>)
    requires j < |fields|
    ensures before + Accepted(n, fields[..j + 1], hit)
         == before + Accepted(n, fields[..j], hit) + if hit(fields[j]) then [(n, fields[j])] else []
  {
    assert fields[..j + 1][..j] == fields[..j];
  }

  lemma {:induction false} AcceptedOwn(n: NamedRef, fields: seq<FlatField>, hit: Hit, v: Visit)
    requires v in Accepted(n, fields, hit)
    ensures v.0 == n
  {
    var last := |fields| - 1;
    if v in Accepted(n, fields[..last], hit) { AcceptedOwn(n, fields[..last], hit, v); }
  }

  ghost function Count(vs: seq<Visit>, v: Visit): nat { multiset(vs)[v] }

  /** How often an expansion of v's instance visits v's field. */
  ghost function Due(p: Project, view: string, hit: Hit, v: Visit): nat {
    if IsInstance(p, view, v.0) then Count(Accepted(v.0, FieldsOf(p, view, v.0), hit), v) else 0
  }

  /** The visits from before to after are those of the instances of done. */
  ghost predicate Visited(p: Project, view: string, hit: Hit, before: seq<Visit>, after: seq<Visit>,
                          done: set<NamedRef>) {
    forall v :: Count(after, v) == Count(before, v) + if v.0 in done then Due(p, view, hit, v) else 0
  }

  lemma VisitedJoin(p: Project, view: string, hit: Hit, a: seq<Visit>, b: seq<Visit>, c: seq<Visit>,
                    x: set<NamedRef>, y: set<NamedRef>)
    requires x !! y && Visited(p, view, hit, a, b, x) && Visited(p, view, hit, b, c, y)
    ensures Visited(p, view, hit, a, c, x + y)
  {
  }

  /** The visits of n's own fields, then of others, are those of all. */
  lemma OwnVisited(p: Project, view: string, hit: Hit, before: seq<Visit>, after: seq<Visit>, n: NamedRef,
                   others: set<NamedRef>)
    requires IsInstance(p, view, n) && n !in others
    requires Visited(p, view, hit, before + Accepted(n, FieldsOf(p, view, n), hit), after, others)
    ensures Visited(p, view, hit, before, after, others + {n})
  {
    var own := Accepted(n, FieldsOf(p, view, n), hit);
    forall v ensures Count(after, v) == Count(before, v) + if v.0 in others + {n} then Due(p, view, hit, v) else 0 {
      assert Count(before + own, v) == Count(before, v) + Count(own, v);
      if v in own { AcceptedOwn(n, FieldsOf(p, view, n), hit, v); }
    }
  }

  ghost function RefsIn(universe: set<TypeRef>): set<NamedRef> {
    set t, n | t in universe && n in OuterRefs(t) :: n
  }

  ghost function KeysOf(p: Project, view: string, refs: set<NamedRef>): set<SeenKey> {
    set n | n in refs :: KeyOf(p, view, n)
  }

  /** A finite set of types a walk cannot leave, whose instances their keys
      tell apart. */
  ghost predicate Enclosed(p: Project, view: string, universe: set<TypeRef>) {
    && (forall n, ff :: n in RefsIn(universe) && IsInstance(p, view, n) && ff in FieldsOf(p, view, n) ==>
        ff.typ in universe)
    && (forall n, m :: n in RefsIn(universe) && m in RefsIn(universe) && KeyOf(p, view, n) == KeyOf(p, view, m) ==>
        n == m)
  }

  /** Each of refs is expanded, with all below it among them. */
  ghost predicate Settles(p: Project, view: string, hit: Hit, expanded: set<NamedRef>, refs: set<NamedRef>) {
    forall n, m :: n in expanded && Below(p, view, hit, n, m) ==> m in refs
  }

  ghost predicate AllWalked(p: Project, view: string, hit: Hit, t: TypeRef, refs: set<NamedRef>) {
    forall n :: n in refs ==> Walked(p, view, hit, t, n)
  }

  /** What a walk has expanded and visited so far. */
  datatype Trail = Trail(refs: set<NamedRef>, visits: seq<Visit>)

  /** From a to b exactly instances walked from t were expanded, each with
      all below it, and exactly their accepted fields visited. */
  ghost predicate Progress(p: Project, view: string, hit: Hit, t: TypeRef, a: Trail, b: Trail) {
    && a.refs <= b.refs && AllWalked(p, view, hit, t, b.refs - a.refs)
    && Settles(p, view, hit, b.refs - a.refs, b.refs)
    && Visited(p, view, hit, a.visits, b.visits, b.refs - a.refs)
  }

  lemma ProgressSelf(p: Project, view: string, hit: Hit, t: TypeRef, a: Trail)
    ensures Progress(p, view, hit, t, a, a)
  {
  }

  lemma ProgressJoin(p: Project, view: string, hit: Hit, t: TypeRef, a: Trail, b: Trail, c: Trail)
    requires Progress(p, view, hit, t, a, b) && Progress(p, view, hit, t, b, c)
    ensures Progress(p, view, hit, t, a, c)
  {
    assert (b.refs - a.refs) + (c.refs - b.refs) == c.refs - a.refs;
    VisitedJoin(p, view, hit, a.visits, b.visits, c.visits, b.refs - a.refs, c.refs - b.refs);
  }

  lemma ProgressVisit(p: Project, view: string, hit: Hit, t: TypeRef, a: Trail, b: Trail, v: Visit)
    requires Progress(p, view, hit, t, a, b)
    ensures Progress(p, view, hit, t, a.(visits := a.visits + [v]), b.(visits := b.visits + [v]))
  {
  }

  /** What is walked from an instance of t, or from a refused field of it, is
      walked from t. */
  lemma ProgressOuter(p: Project, view: string, hit: Hit, t: TypeRef, n: NamedRef, a: Trail, b: Trail)
    requires n in OuterRefs(t) && Progress(p, view, hit, Named(n, 0, false), a, b)
    ensures Progress(p, view, hit, t, a, b)
  {
    forall m | m in b.refs - a.refs ensures Walked(p, view, hit, t, m) {
      var top :| BuiltOf(Named(n, 0, false), top) && IsInstance(p, view, top) && Leads(Descents(p, view, hit), top, m);
      OuterExactly(Named(n, 0, false), top);
      OuterExactly(t, n);
    }
  }

  lemma ProgressUnder(p: Project, view: string, hit: Hit, n: NamedRef, ff: FlatField, a: Trail, b: Trail)
    requires IsInstance(p, view, n) && ff in FieldsOf(p, view, n) && !hit(ff) && Progress(p, view, hit, ff.typ, a, b)
    ensures Progress(p, view, hit, Named(n, 0, false), a, b)
  {
    forall m | m in b.refs - a.refs ensures Walked(p, view, hit, Named(n, 0, false), m) {
      NamedHere(MapParts(), Named(n, 0, false));
      WalkedUnder(p, view, hit, Named(n, 0, false), n, ff, m);
    }
  }

  /** Marking n, then walking its fields, is progress that expands n. */
  lemma ProgressExpand(p: Project, view: string, hit: Hit, n: NamedRef, a: Trail, b: Trail)
    requires IsInstance(p, view, n) && n !in a.refs
    requires Progress(p, view, hit, Named(n, 0, false),
                      Trail(a.refs + {n}, a.visits + Accepted(n, FieldsOf(p, view, n), hit)), b)
    requires Settles(p, view, hit, {n}, b.refs)
    ensures Progress(p, view, hit, Named(n, 0, false), a, b)
  {
    NamedHere(MapParts(), Named(n, 0, false));
    WalkedStart(p, view, hit, Named(n, 0, false), n);
    var others := b.refs - (a.refs + {n});
    assert b.refs - a.refs == others + {n};
    OwnVisited(p, view, hit, a.visits, b.visits, n, others);
  }

  ghost predicate OuterIn(p: Project, view: string, outer: seq<NamedRef>, refs: set<NamedRef>) {
    forall n :: n in outer && IsInstance(p, view, n) ==> n in refs
  }

  lemma OuterMore(p: Project, view: string, outer: seq<NamedRef>, i: nat, refs: set<NamedRef>, refs': set<NamedRef>)
    requires i < |outer| && OuterIn(p, view, outer[..i], refs) && refs <= refs'
    requires IsInstance(p, view, outer[i]) ==> outer[i] in refs'
    ensures OuterIn(p, view, outer[..i + 1], refs')
  {
  }

  /** The instances of the refused fields are among refs. */
  ghost predicate RefusedIn(p: Project, view: string, hit: Hit, fields: seq<FlatField>, refs: set<NamedRef>) {
    forall ff :: ff in fields && !hit(ff) ==> OuterIn(p, view, OuterRefs(ff.typ), refs)
  }

  lemma RefInside(universe: set<TypeRef>, t: TypeRef, n: NamedRef)
    requires t in universe && n in OuterRefs(t)
    ensures n in RefsIn(universe)
  {
  }

  lemma RefusedSettles(p: Project, view: string, hit: Hit, n: NamedRef, refs: set<NamedRef>)
    requires IsInstance(p, view, n) && RefusedIn(p, view, hit, FieldsOf(p, view, n), refs)
    ensures Settles(p, view, hit, {n}, refs)
  {
    forall m | Below(p, view, hit, n, m) ensures m in refs {
      var ff :| ff in FieldsOf(p, view, n) && !hit(ff) && BuiltOf(ff.typ, m);
      OuterExactly(ff.typ, m);
    }
  }

  lemma RefusedMore(p: Project, view: string, hit: Hit, fields: seq<FlatField>, j: nat, refs: set<NamedRef>,
                    refs': set<NamedRef>)
    requires j < |fields| && refs <= refs' && RefusedIn(p, view, hit, fields[..j], refs)
    requires !hit(fields[j]) ==> OuterIn(p, view, OuterRefs(fields[j].typ), refs')
    ensures RefusedIn(p, view, hit, fields[..j + 1], refs')
  {
  }

  // ---- The order of the visits ----

  /** One step of a walk from t: into a map's key or its value, or into a refused
      field of an instance. */
  function StepInto(p: Project, view: string, hit: Hit, t: TypeRef, d: nat): Option<TypeRef> {
    match t
    case MapOf(k, v, _, _) => if d == 0 then Some(k) else if d == 1 then Some(v) else None
    case Named(n, _, _) =>
      if IsInstance(p, view, n) && d < |FieldsOf(p, view, n)| && !hit(FieldsOf(p, view, n)[d]) then
        Some(FieldsOf(p, view, n)[d].typ)
      else None
  }

  /** The type a way leads to from t. */
  function TypeAt(p: Project, view: string, hit: Hit, t: TypeRef, way: Way): Option<TypeRef> {
    if way == [] then Some(t)
    else
      var last := |way| - 1;
      var u := TypeAt(p, view, hit, t, way[..last]);
      if u.None? then None else StepInto(p, view, hit, u.value, way[last])
  }

  /** The accepted field a way leads to, and its instance. */
  function VisitAt(p: Project, view: string, hit: Hit, t: TypeRef, way: Way): Option<Visit> {
    if way == [] then None
    else
      var last := |way| - 1;
      var u := TypeAt(p, view, hit, t, way[..last]);
      if u.Some? && u.value.Named? && IsInstance(p, view, u.value.ref) &&
          way[last] < |FieldsOf(p, view, u.value.ref)| && hit(FieldsOf(p, view, u.value.ref)[way[last]])
      then Some((u.value.ref, FieldsOf(p, view, u.value.ref)[way[last]]))
      else None
  }

  /** The visits stand in the order of the ways that lead to them. */
  ghost predicate Trodden(p: Project, view: string, hit: Hit, t: TypeRef, visits: seq<Visit>, ways: seq<Way>) {
    && |ways| == |visits| && InOrder(ways)
    && forall i :: 0 <= i < |ways| ==> VisitAt(p, view, hit, t, ways[i]) == Some(visits[i])
  }

  lemma TroddenOn(p: Project, view: string, hit: Hit, t: TypeRef, visits: seq<Visit>, ways: seq<Way>, at: Way, v: Visit)
    requires Trodden(p, view, hit, t, visits, ways) && AllLeft(ways, at) && VisitAt(p, view, hit, t, at) == Some(v)
    ensures Trodden(p, view, hit, t, visits + [v], ways + [at]) && AllUpTo(ways + [at], at)
  {
    InOrderOn(ways, at);
  }

  lemma TypeAtStep(p: Project, view: string, hit: Hit, t: TypeRef, at: Way, u: TypeRef, d: nat)
    requires TypeAt(p, view, hit, t, at) == Some(u)
    ensures TypeAt(p, view, hit, t, at + [d]) == StepInto(p, view, hit, u, d)
    ensures u.Named? && IsInstance(p, view, u.ref) && d < |FieldsOf(p, view, u.ref)| ==>
      var ff := FieldsOf(p, view, u.ref)[d];
      if hit(ff) then VisitAt(p, view, hit, t, at + [d]) == Some((u.ref, ff))
      else TypeAt(p, view, hit, t, at + [d]) == Some(ff.typ)
  {
    assert (at + [d])[..|at|] == at;
  }

  lemma {:induction false} TypeAtJoin(p: Project, view: string, hit: Hit, t: TypeRef, at: Way, u: TypeRef, way: Way)
    requires TypeAt(p, view, hit, t, at) == Some(u)
    ensures TypeAt(p, view, hit, t, at + way) == TypeAt(p, view, hit, u, way)
    decreases |way|
  {
    if way == [] {
      assert at + way == at;
    } else {
      var last := |way| - 1;
      TypeAtJoin(p, view, hit, t, at, u, way[..last]);
      assert (at + way)[..|at| + last] == at + way[..last];
    }
  }

  /** The ways through maps to the outer named types. */
  function OuterWays(t: TypeRef): seq<Way> {
    match t
    case MapOf(k, v, _, _) => Under(0, OuterWays(k)) + Under(1, OuterWays(v))
    case Named(_, _, _) => [[]]
  }

  lemma {:induction false} OuterSome(t: TypeRef)
    ensures OuterRefs(t) != []
  {
    if t.MapOf? { OuterSome(t.key); }
  }

  ghost predicate OuterWaysRight(p: Project, view: string, hit: Hit, t: TypeRef, outer: seq<NamedRef>, ways: seq<Way>) {
    && |ways| == |outer|
    && (forall i: nat {:trigger OuterWayRight(p, view, hit, t, outer, ways, i)} :: i < |ways| ==>
          OuterWayRight(p, view, hit, t, outer, ways, i))
    && forall i: nat, j: nat {:trigger Parts(ways, i, j)} :: i < j < |ways| ==> Parts(ways, i, j)
  }

  predicate Parts(ways: seq<Way>, i: nat, j: nat) requires i < j < |ways| { LeftOf(ways[i], ways[j]) }

  predicate OuterWayRight(p: Project, view: string, hit: Hit, t: TypeRef, outer: seq<NamedRef>, ways: seq<Way>, i: nat)
    requires i < |ways| == |outer|
  {
    var u := TypeAt(p, view, hit, t, ways[i]); u.Some? && u.value.Named? && u.value.ref == outer[i]
  }

  lemma {:induction false} OuterWaysLead(p: Project, view: string, hit: Hit, t: TypeRef)
    ensures OuterWaysRight(p, view, hit, t, OuterRefs(t), OuterWays(t))
    decreases t
  {
    match t
    case MapOf(k, v, _, _) =>
      OuterWaysLead(p, view, hit, k);
      OuterWaysLead(p, view, hit, v);
      UnderLead(p, view, hit, t, 0, k, OuterRefs(k), OuterWays(k));
      UnderLead(p, view, hit, t, 1, v, OuterRefs(v), OuterWays(v));
      JoinLead(p, view, hit, t, OuterRefs(k), Under(0, OuterWays(k)), OuterRefs(v), Under(1, OuterWays(v)));
    case Named(n, _, _) =>
      assert TypeAt(p, view, hit, t, []) == Some(t);
      assert OuterWayRight(p, view, hit, t, [n], [[]], 0);
  }

  lemma TypeAtUnder(p: Project, view: string, hit: Hit, t: TypeRef, d: nat, u: TypeRef, way: Way)
    requires StepInto(p, view, hit, t, d) == Some(u)
    ensures TypeAt(p, view, hit, t, [d] + way) == TypeAt(p, view, hit, u, way)
  {
    TypeAtStep(p, view, hit, t, [], t, d);
    assert [] + [d] == [d];
    TypeAtJoin(p, view, hit, t, [d], u, way);
  }

  lemma UnderLead(p: Project, view: string, hit: Hit, t: TypeRef, d: nat, u: TypeRef, outer: seq<NamedRef>,
                  ways: seq<Way>)
    requires StepInto(p, view, hit, t, d) == Some(u) && OuterWaysRight(p, view, hit, u, outer, ways)
    ensures OuterWaysRight(p, view, hit, t, outer, Under(d, ways))
  {
    var under := Under(d, ways);
    forall i: nat | i < |under| ensures OuterWayRight(p, view, hit, t, outer, under, i) {
      assert OuterWayRight(p, view, hit, u, outer, ways, i);
      TypeAtUnder(p, view, hit, t, d, u, ways[i]);
    }
    forall i: nat, j: nat | i < j < |under| ensures Parts(under, i, j) {
      assert Parts(ways, i, j);
      LeftUnder([d], ways[i], ways[j]);
    }
  }

  lemma JoinLead(p: Project, view: string, hit: Hit, t: TypeRef, a: seq<NamedRef>, xs: seq<Way>, b: seq<NamedRef>,
                 ys: seq<Way>)
    requires OuterWaysRight(p, view, hit, t, a, xs) && OuterWaysRight(p, view, hit, t, b, ys)
    requires forall i :: 0 <= i < |xs| ==> xs[i] != [] && xs[i][0] == 0
    requires forall i :: 0 <= i < |ys| ==> ys[i] != [] && ys[i][0] == 1
    ensures OuterWaysRight(p, view, hit, t, a + b, xs + ys)
  {
    var outer, ways := a + b, xs + ys;
    forall i: nat | i < |ways| ensures OuterWayRight(p, view, hit, t, outer, ways, i) {
      if i < |xs| { assert OuterWayRight(p, view, hit, t, a, xs, i); }
      else { assert OuterWayRight(p, view, hit, t, b, ys, i - |xs|); }
    }
    forall i: nat, j: nat | i < j < |ways| ensures Parts(ways, i, j) {
      if j < |xs| { assert Parts(xs, i, j); }
      else if i >= |xs| { assert Parts(ys, i - |xs|, j - |xs|); }
    }
  }

  class Visitor {
    const p: Project
    const view: string
    const hit: Hit
    ghost const universe: set<TypeRef>
    var seen: set<SeenKey>
    var visits: seq<Visit>
    ghost var refs: set<NamedRef>
    ghost const root: TypeRef
    ghost var ways: seq<Way>

    constructor (p: Project, view: string, hit: Hit, ghost universe: set<TypeRef>, ghost root: TypeRef)
      requires Enclosed(p, view, universe)
      ensures Valid() && refs == {} && visits == [] && Treads() && ways == []
      ensures this.p == p && this.view == view && this.hit == hit && this.universe == universe && this.root == root
    {
      this.p, this.view, this.hit, this.universe, this.root := p, view, hit, universe, root;
      seen, visits, refs, ways := {}, [], {}, [];
    }

    /** The visits are those of the ways taken from root, in order. */
    ghost predicate Treads() reads this { Trodden(p, view, hit, root, visits, ways) }

    /** The way at leads from root to t, and all ways taken are left of it. */
    ghost predicate Ahead(at: Way, t: TypeRef) reads this {
      TypeAt(p, view, hit, root, at) == Some(t) && AllLeft(ways, at)
    }

    ghost predicate Valid() reads this {
      Enclosed(p, view, universe) && refs <= RefsIn(universe) && seen == KeysOf(p, view, refs)
    }

    ghost function Now(): Trail reads this { Trail(refs, visits) }

    ghost function Left(): set<NamedRef> reads this { RefsIn(universe) - refs }

    /** Visits the accepted fields of the structs t reaches. */
    method VisitFields(t: TypeRef, ghost at: Way)
      requires Valid() && t in universe && Treads() && Ahead(at, t)
      modifies this
      ensures Valid() && Progress(p, view, hit, t, old(Now()), Now())
      ensures OuterIn(p, view, OuterRefs(t), refs)
      ensures Treads() && AllUpTo(ways, at)
      decreases Left(), 1, 0
    {
      var outer := OuterRefs(t);
      ghost var from := Now();
      ProgressSelf(p, view, hit, t, from);
      OuterStart(t, at);
      for i := 0 to |outer|
        invariant OuterDone(t, from, i) && Onward(t, at, i)
        invariant old(refs) <= refs && from == old(Now())
      {
        VisitOuter(t, i, from, at);
      }
      assert outer[..|outer|] == outer;
    }

    /** The first i outer named types of t are walked, from the trail from on. */
    ghost predicate OuterDone(t: TypeRef, from: Trail, i: nat)
      reads this
    {
      && Valid() && t in universe && i <= |OuterRefs(t)| && Progress(p, view, hit, t, from, Now())
      && OuterIn(p, view, OuterRefs(t)[..i], refs)
    }

    /** All ways taken are left of that to the next outer named type. */
    ghost predicate Onward(t: TypeRef, at: Way, i: nat)
      reads this
    {
      && Treads() && TypeAt(p, view, hit, root, at) == Some(t) && |OuterWays(t)| == |OuterRefs(t)|
      && if i < |OuterWays(t)| then AllLeft(ways, at + OuterWays(t)[i]) else AllUpTo(ways, at)
    }

    lemma OuterStart(t: TypeRef, at: Way)
      requires Treads() && Ahead(at, t)
      ensures Onward(t, at, 0)
    {
      OuterWaysLead(p, view, hit, t);
      OuterSome(t);
      AllLeftOn(ways, at, OuterWays(t)[0]);
    }

    method VisitOuter(t: TypeRef, i: nat, ghost from: Trail, ghost at: Way)
      requires OuterDone(t, from, i) && Onward(t, at, i) && i < |OuterRefs(t)|
      modifies this
      ensures OuterDone(t, from, i + 1) && Onward(t, at, i + 1) && old(refs) <= refs
      decreases Left(), 0, 2
    {
      var n := OuterRefs(t)[i];
      LedTo(t, at, i);
      if IsInstance(p, view, n) { VisitRef(t, n, from, at + OuterWays(t)[i]); }
      OuterMore(p, view, OuterRefs(t), i, old(refs), refs);
      NextOuter(t, at, i);
    }

    /** The way on to the i-th outer named type of t. */
    lemma LedTo(t: TypeRef, at: Way, i: nat)
      requires TypeAt(p, view, hit, root, at) == Some(t) && i < |OuterRefs(t)|
      ensures |OuterWays(t)| == |OuterRefs(t)|
      ensures var u := TypeAt(p, view, hit, root, at + OuterWays(t)[i]);
        u.Some? && u.value.Named? && u.value.ref == OuterRefs(t)[i]
    {
      OuterWaysLead(p, view, hit, t);
      assert OuterWayRight(p, view, hit, t, OuterRefs(t), OuterWays(t), i);
      TypeAtJoin(p, view, hit, root, at, t, OuterWays(t)[i]);
    }

    lemma NextOuter(t: TypeRef, at: Way, i: nat)
      requires i < |OuterRefs(t)| && |OuterWays(t)| == |OuterRefs(t)| && AllUpTo(ways, at + OuterWays(t)[i])
      ensures i + 1 < |OuterRefs(t)| ==> AllLeft(ways, at + OuterWays(t)[i + 1])
      ensures AllUpTo(ways, at)
    {
      var paths := OuterWays(t);
      AllUpToSplit(ways, at, paths[i]);
      if i + 1 < |paths| {
        OuterWaysLead(p, view, hit, t);
        assert Parts(paths, i, i + 1);
        LeftUnder(at, paths[i], paths[i + 1]);
        AllUpToNext(ways, at + paths[i], at + paths[i + 1]);
      }
    }

    /** Expands an instance t is built of, unless it was seen. */
    method VisitRef(ghost t: TypeRef, n: NamedRef, ghost from: Trail, ghost at: Way)
      requires Valid() && t in universe && n in OuterRefs(t) && IsInstance(p, view, n)
      requires Progress(p, view, hit, t, from, Now()) && Treads() && At(at, n)
      modifies this
      ensures Valid() && old(refs) <= refs && n in refs && Progress(p, view, hit, t, from, Now())
      ensures Treads() && AllUpTo(ways, at)
      decreases Left(), 0, 1
    {
      RefInside(universe, t, n);
      if KeyOf(p, view, n) !in seen {
        ghost var before := Now();
        Expand(n, at);
        ProgressOuter(p, view, hit, t, n, before, Now());
        ProgressJoin(p, view, hit, t, from, before, Now());
      }
    }

    /** Expands the instance n, met for the first time. */
    method Expand(n: NamedRef, ghost at: Way)
      requires Valid() && n in RefsIn(universe) && IsInstance(p, view, n) && KeyOf(p, view, n) !in seen
      requires Treads() && At(at, n)
      modifies this
      ensures Valid() && n in refs && Progress(p, view, hit, Named(n, 0, false), old(Now()), Now())
      ensures Treads() && AllUpTo(ways, at)
      decreases Left(), 0, 0
    {
      seen := seen + {KeyOf(p, view, n)};
      refs := refs + {n};
      VisitOwn(n, at);
      ProgressExpand(p, view, hit, n, old(Now()), Now());
    }

    /** Visits the accepted fields of n and walks below its refused ones. */
    method VisitOwn(n: NamedRef, ghost at: Way)
      requires Valid() && n in RefsIn(universe) && IsInstance(p, view, n) && Treads() && At(at, n)
      modifies this
      ensures Valid() && Settles(p, view, hit, {n}, refs) && Treads() && AllUpTo(ways, at)
      ensures Progress(p, view, hit, Named(n, 0, false),
                       Trail(old(refs), old(visits) + Accepted(n, FieldsOf(p, view, n), hit)), Now())
      decreases Left(), 3
    {
      var fields := FieldsOf(p, view, n);
      ghost var from := Now();
      ProgressSelf(p, view, hit, Named(n, 0, false), from);
      AllLeftOn(ways, at, [0]);
      for j := 0 to |fields|
        invariant OwnDone(n, from, j) && old(refs) <= refs && Treads() && AllLeft(ways, at + [j])
        invariant from == Trail(old(refs), old(visits) + Accepted(n, fields[..j], hit))
      {
        VisitNext(n, j, from, at);
        AcceptedMore(n, fields, j, hit, old(visits));
        from := Trail(from.refs, from.visits + if hit(fields[j]) then [(n, fields[j])] else []);
      }
      AllLeftSplit(ways, at, [|fields|]);
      assert fields[..|fields|] == fields;
      RefusedSettles(p, view, hit, n, refs);
    }

    /** The first j fields of n are visited or walked below. */
    ghost predicate OwnDone(n: NamedRef, from: Trail, j: nat)
      reads this
    {
      && Valid() && n in RefsIn(universe) && IsInstance(p, view, n) && j <= |FieldsOf(p, view, n)|
      && RefusedIn(p, view, hit, FieldsOf(p, view, n)[..j], refs)
      && Progress(p, view, hit, Named(n, 0, false), from, Now())
    }

    method VisitNext(n: NamedRef, j: nat, ghost from: Trail, ghost at: Way)
      requires OwnDone(n, from, j) && j < |FieldsOf(p, view, n)|
      requires Treads() && LeadsTo(at, n) && AllLeft(ways, at + [j])
      modifies this
      ensures var ff := FieldsOf(p, view, n)[j];
        OwnDone(n, Trail(from.refs, from.visits + if hit(ff) then [(n, ff)] else []), j + 1)
      ensures old(refs) <= refs && Treads() && AllLeft(ways, at + [j + 1])
      decreases Left(), 2, 1
    {
      VisitOne(n, j, from, at);
      RefusedMore(p, view, hit, FieldsOf(p, view, n), j, old(refs), refs);
      NextStep(at, j);
      AllUpToNext(ways, at + [j], at + [j + 1]);
    }

    /** Visits the j-th field of n, or walks below it. */
    method VisitOne(n: NamedRef, j: nat, ghost from: Trail, ghost at: Way)
      requires Valid() && n in RefsIn(universe) && IsInstance(p, view, n) && j < |FieldsOf(p, view, n)|
      requires Progress(p, view, hit, Named(n, 0, false), from, Now())
      requires Treads() && LeadsTo(at, n) && AllLeft(ways, at + [j])
      modifies this
      ensures var ff := FieldsOf(p, view, n)[j];
        && Valid() && old(refs) <= refs && (!hit(ff) ==> OuterIn(p, view, OuterRefs(ff.typ), refs))
        && Progress(p, view, hit, Named(n, 0, false),
                    Trail(from.refs, from.visits + if hit(ff) then [(n, ff)] else []), Now())
      ensures Treads() && AllUpTo(ways, at + [j])
      decreases Left(), 2, 0
    {
      var ff := FieldsOf(p, view, n)[j];
      ghost var self, before := Named(n, 0, false), Now();
      TypeAtStep(p, view, hit, root, at, TypeAt(p, view, hit, root, at).value, j);
      if hit(ff) {
        TroddenOn(p, view, hit, root, visits, ways, at + [j], (n, ff));
        visits := visits + [(n, ff)];
        ways := ways + [at + [j]];
        ProgressVisit(p, view, hit, self, from, before, (n, ff));
      } else {
        VisitFields(ff.typ, at + [j]);
        ProgressUnder(p, view, hit, n, ff, before, Now());
        ProgressJoin(p, view, hit, self, from, before, Now());
        assert from.visits + [] == from.visits;
      }
    }

    /** The way at leads from root to an instance named by n. */
    ghost predicate LeadsTo(at: Way, n: NamedRef) {
      var u := TypeAt(p, view, hit, root, at); u.Some? && u.value.Named? && u.value.ref == n
    }

    ghost predicate At(at: Way, n: NamedRef) reads this { LeadsTo(at, n) && AllLeft(ways, at) }
  }

  // ---- The walk of a package whose instances are settled ----

  lemma RefOfReached(p: Project, view: string, q: set<string>, start: TypeRef, t: TypeRef, n: NamedRef)
    requires Marked(p) && LegibleBodies(p, view, q) && Legible(p, view, q, start)
    requires Reaches(p, view, start, t) && n in OuterRefs(t)
    ensures n in NamedRefs(t) && LegibleRef(p, view, q, n)
  {
    OuterNested(t, n);
    ReachedLegible(p, view, q, start, t);
    RefLegible(p, view, q, t, n);
  }

  /** What a legible type of a settled package reaches encloses a walk. */
  lemma FindUniverse(p: Project, view: string, q: set<string>, start: TypeRef) returns (universe: set<TypeRef>)
    requires Marked(p) && Settled(p, view) && LegibleBodies(p, view, q) && Legible(p, view, q, start)
    ensures Enclosed(p, view, universe) && start in universe
  {
    SettledFinite(p, view, start);
    var all :| Covers(p, view, start, all);
    universe := set t | t in all && Reaches(p, view, start, t);
    ReachesSelf(p, view, start);
    forall n, ff | n in RefsIn(universe) && IsInstance(p, view, n) && ff in FieldsOf(p, view, n)
      ensures ff.typ in universe
    {
      var t :| t in universe && n in OuterRefs(t);
      OuterNested(t, n);
      FieldsReached(p, view, start, t, n, ff);
    }
    forall n, m | n in RefsIn(universe) && m in RefsIn(universe) && KeyOf(p, view, n) == KeyOf(p, view, m)
      ensures n == m
    {
      var t :| t in universe && n in OuterRefs(t);
      var u :| u in universe && m in OuterRefs(u);
      RefOfReached(p, view, q, start, t, n);
      RefOfReached(p, view, q, start, u, m);
      KeyInjective(p, view, q, n, m);
    }
  }

  /** Visits exactly the accepted fields of the struct instances t reaches
      through refused fields, each instance expanded once. q holds the type
      parameters that references leave unbound, if any. */
  method VisitFieldsWhere(p: Project, view: string, t: TypeRef, hit: Hit, ghost q: set<string>)
    returns (visits: seq<Visit>)
    requires Marked(p) && Quiet(p) && Settled(p, view) && LegibleBodies(p, view, q) && Legible(p, view, q, t)
    ensures forall v :: Count(visits, v) == if Walked(p, view, hit, t, v.0) then Due(p, view, hit, v) else 0
    ensures exists ways :: Trodden(p, view, hit, t, visits, ways)
  {
    ghost var universe := FindUniverse(p, view, q, t);
    var walk := new Visitor(p, view, hit, universe, t);
    walk.VisitFields(t, []);
    visits := walk.visits;
    WalkedAreRefs(p, view, hit, t, walk.refs);
  }

  lemma WalkedAreRefs(p: Project, view: string, hit: Hit, t: TypeRef, refs: set<NamedRef>)
    requires AllWalked(p, view, hit, t, refs) && Settles(p, view, hit, refs, refs)
    requires OuterIn(p, view, OuterRefs(t), refs)
    ensures forall n :: n in refs <==> Walked(p, view, hit, t, n)
  {
    forall n | Walked(p, view, hit, t, n) ensures n in refs {
      var top :| BuiltOf(t, top) && IsInstance(p, view, top) && Leads(Descents(p, view, hit), top, n);
      OuterExactly(t, top);
      Kept(Descents(p, view, hit), top, n, iset m | m in refs);
    }
  }
}
