/** A flattening expands each type its mixins reach exactly once. */
module Promotion {
  import opened Ast
  import opened Spelling
  import opened Paths
  import opened Flatten

  /** The types embedded by the mixins of a body of package home. */
  ghost function Embedded(p: Project, home: string, body: seq<Member>): set<Key> {
    set i | 0 <= i < |body| && body[i].Mixin? && Target(p, home, body[i].ref).Some? ::
        Target(p, home, body[i].ref).value
  }

  ghost function EmbeddedBy(p: Project, k: Key): set<Key> requires k in p.types {
    Embedded(p, k.pkg, p.types[k].body)
  }

  /** A sequence of types, each embedded by the one before. */
  ghost predicate IsEmbedding(p: Project, path: seq<Key>) {
    && path != [] && (forall i :: 0 <= i < |path| ==> path[i] in p.types)
    && forall i :: 0 <= i < |path| - 1 ==> path[i + 1] in EmbeddedBy(p, path[i])
  }

  /** k is the type itself or one its mixins reach. */
  ghost predicate InFamily(p: Project, top: Key, k: Key) {
    exists path :: IsEmbedding(p, path) && path[0] == top && path[|path| - 1] == k
  }

  /** k is reached from body by one or more mixins. */
  ghost predicate Promotes(p: Project, home: string, body: seq<Member>, k: Key) {
    exists top :: top in Embedded(p, home, body) && InFamily(p, top, k)
  }

  lemma FamilySelf(p: Project, k: Key)
    requires k in p.types
    ensures InFamily(p, k, k)
  {
    assert IsEmbedding(p, [k]) && [k][0] == k;
  }

  lemma FamilyUnder(p: Project, top: Key, m: Key, k: Key)
    requires top in p.types && m in EmbeddedBy(p, top) && InFamily(p, m, k)
    ensures InFamily(p, top, k)
  {
    var path :| IsEmbedding(p, path) && path[0] == m && path[|path| - 1] == k;
    var up := [top] + path;
    forall i | 0 <= i < |up| - 1 ensures up[i + 1] in EmbeddedBy(p, up[i]) {
      if i > 0 { assert path[i] in EmbeddedBy(p, path[i - 1]); }
    }
    assert IsEmbedding(p, up) && up[0] == top && up[|up| - 1] == k;
  }

  lemma EmbeddedMore(p: Project, home: string, body: seq<Member>)
    requires body != []
    ensures var last := |body| - 1; var m := body[last];
      Embedded(p, home, body) == Embedded(p, home, body[..last]) +
        (if m.Mixin? && Target(p, home, m.ref).Some? then {Target(p, home, m.ref).value} else {})
  {
    var last := |body| - 1;
    var front := body[..last];
    forall i | 0 <= i < last ensures body[i] == front[i] { }
    forall k | k in Embedded(p, home, front) ensures k in Embedded(p, home, body) {
      var i :| 0 <= i < |front| && front[i].Mixin? && Target(p, home, front[i].ref) == Some(k);
      assert body[i] == front[i];
    }
  }

  ghost predicate NoRepeat<T>(xs: seq<T>) { forall i, j :: 0 <= i < j < |xs| ==> xs[i] != xs[j] }

  /** The types a level expands are types of the project, new to the walk,
      and no two of them are the same. */
  lemma {:induction false} LevelOnce(p: Project, body: seq<Member>, c: Scope, expanded: set<Key>)
    ensures var order := Level(p, body, c, expanded).order;
      NoRepeat(order) && Keys(order) !! expanded && Keys(order) <= p.types.Keys
    decreases p.types.Keys - expanded, |body|
  {
    if body != [] {
      var last := |body| - 1;
      var r := Level(p, body[..last], c, expanded);
      LevelOnce(p, body[..last], c, expanded);
      if body[last].Mixin? {
        var target := Target(p, c.home, body[last].ref);
        if target.Some? && target.value !in expanded && target.value !in r.order {
          var k := target.value;
          var inner := Level(p, p.types[k].body, MixinScope(p, k, body[last].ref, c), expanded + Keys(r.order) + {k});
          LevelOnce(p, p.types[k].body, MixinScope(p, k, body[last].ref, c), expanded + Keys(r.order) + {k});
          NoRepeatJoin(r.order, k, inner.order);
        }
      }
    }
  }

  lemma NoRepeatJoin(a: seq<Key>, k: Key, b: seq<Key>)
    requires NoRepeat(a) && NoRepeat(b) && k !in a && k !in b && Keys(a) !! Keys(b)
    ensures NoRepeat(a + [k] + b) && Keys(a + [k] + b) == Keys(a) + {k} + Keys(b)
  {
    var ab := a + [k] + b;
    forall i, j | 0 <= i < j < |ab| ensures ab[i] != ab[j] {
      assert i < |a| ==> a[i] in Keys(a);
      assert j > |a| ==> b[j - |a| - 1] in Keys(b);
      if i > |a| { assert b[i - |a| - 1] != b[j - |a| - 1]; }
    }
  }

  lemma KeysJoin(a: seq<Key>, k: Key, b: seq<Key>)
    ensures Keys(a + [k] + b) == Keys(a) + {k} + Keys(b)
  {
  }

  /** What was expanded with a level is closed under embedding. */
  lemma {:induction false} LevelClosed(p: Project, body: seq<Member>, c: Scope, expanded: set<Key>)
    ensures var all := expanded + Keys(Level(p, body, c, expanded).order);
      && Embedded(p, c.home, body) <= all
      && forall k :: k in all - expanded && k in p.types ==> EmbeddedBy(p, k) <= all
    decreases p.types.Keys - expanded, |body|
  {
    if body != [] {
      var last := |body| - 1;
      var r := Level(p, body[..last], c, expanded);
      LevelClosed(p, body[..last], c, expanded);
      EmbeddedMore(p, c.home, body);
      if body[last].Mixin? {
        var target := Target(p, c.home, body[last].ref);
        if target.Some? && target.value !in expanded && target.value !in r.order {
          var k, n := target.value, body[last].ref;
          var inner := Level(p, p.types[k].body, MixinScope(p, k, n, c), expanded + Keys(r.order) + {k});
          LevelClosed(p, p.types[k].body, MixinScope(p, k, n, c), expanded + Keys(r.order) + {k});
          KeysJoin(r.order, k, inner.order);
        }
      }
    }
  }

  /** What a level expands, its mixins reach. */
  lemma {:induction false} LevelReached(p: Project, body: seq<Member>, c: Scope, expanded: set<Key>, k: Key)
    requires k in Level(p, body, c, expanded).order
    ensures Promotes(p, c.home, body, k)
    decreases p.types.Keys - expanded, |body|
  {
    var last := |body| - 1;
    var r := Level(p, body[..last], c, expanded);
    EmbeddedMore(p, c.home, body);
    if k in r.order {
      LevelReached(p, body[..last], c, expanded, k);
    } else {
      var n := body[last].ref;
      var top := Target(p, c.home, n).value;
      var ic := MixinScope(p, top, n, c);
      KeysJoin(r.order, top, Level(p, p.types[top].body, ic, expanded + Keys(r.order) + {top}).order);
      FamilySelf(p, top);
      if k != top {
        LevelReached(p, p.types[top].body, ic, expanded + Keys(r.order) + {top}, k);
        var m :| m in EmbeddedBy(p, top) && InFamily(p, m, k);
        FamilyUnder(p, top, m, k);
      }
    }
  }

  lemma {:induction false} ClosedHoldsFamily(p: Project, path: seq<Key>, all: set<Key>)
    requires IsEmbedding(p, path) && path[0] in all
    requires forall k :: k in all && k in p.types ==> EmbeddedBy(p, k) <= all
    ensures path[|path| - 1] in all
  {
    if |path| > 1 {
      var front := path[..|path| - 1];
      ClosedHoldsFamily(p, front, all);
      assert path[|path| - 1] in EmbeddedBy(p, front[|front| - 1]);
    }
  }

  /** A flattening expands exactly the types reached by one or more mixins,
      cycles included, each once. */
  lemma ExpandedExactly(p: Project, body: seq<Member>, c: Scope)
    ensures var order := FlattenFields(p, body, c).order;
      NoRepeat(order) && forall k :: k in order <==> Promotes(p, c.home, body, k)
  {
    var order := FlattenFields(p, body, c).order;
    LevelOnce(p, body, c, {});
    LevelClosed(p, body, c, {});
    forall k ensures k in order <==> Promotes(p, c.home, body, k) {
      if k in order { LevelReached(p, body, c, {}, k); }
      if Promotes(p, c.home, body, k) {
        var top :| top in Embedded(p, c.home, body) && InFamily(p, top, k);
        var path :| IsEmbedding(p, path) && path[0] == top && path[|path| - 1] == k;
        ClosedHoldsFamily(p, path, Keys(order));
      }
    }
  }

  // ---- The fields promoted ----

  /** The names of the fields of body itself, in order. */
  function OwnNames(body: seq<Member>): seq<string> {
    if body == [] then [] else
      var last := |body| - 1;
      OwnNames(body[..last]) + if body[last].Field? then [body[last].name] else []
  }

  function Names(fields: seq<FlatField>): seq<string> { seq(|fields|, i requires 0 <= i < |fields| => fields[i].name) }

  function BodyOf(p: Project, k: Key): seq<Member> { if k in p.types then p.types[k].body else [] }

  ghost function Count(names: seq<string>, f: string): nat { multiset(names)[f] }

  /** How many fields of the given types are named f. */
  ghost function CountIn(p: Project, order: seq<Key>, f: string): nat {
    if order == [] then 0 else
      var last := |order| - 1;
      CountIn(p, order[..last], f) + Count(OwnNames(BodyOf(p, order[last])), f)
  }

  lemma {:induction false} CountInJoin(p: Project, a: seq<Key>, b: seq<Key>, f: string)
    ensures CountIn(p, a + b, f) == CountIn(p, a, f) + CountIn(p, b, f)
  {
    if b == [] {
      assert a + b == a;
    } else {
      var last := |b| - 1;
      assert (a + b)[..|a| + last] == a + b[..last];
      CountInJoin(p, a, b[..last], f);
    }
  }

  lemma NamesJoin(a: seq<FlatField>, b: seq<FlatField>, f: string)
    ensures Count(Names(a + b), f) == Count(Names(a), f) + Count(Names(b), f)
  {
    assert Names(a + b) == Names(a) + Names(b);
  }

  lemma OwnNamesMore(body: seq<Member>, f: string)
    requires body != []
    ensures var last := |body| - 1;
      Count(OwnNames(body), f) ==
      Count(OwnNames(body[..last]), f) + (if body[last].Field? && body[last].name == f then 1 else 0)
  {
  }

  /** A level yields the fields of its body and of each type it expands. */
  lemma {:induction false} LevelFields(p: Project, body: seq<Member>, c: Scope, expanded: set<Key>, f: string)
    ensures var r := Level(p, body, c, expanded);
      Count(Names(r.fields), f) == Count(OwnNames(body), f) + CountIn(p, r.order, f)
    decreases p.types.Keys - expanded, |body|
  {
    if body != [] {
      var last := |body| - 1;
      var r := Level(p, body[..last], c, expanded);
      LevelFields(p, body[..last], c, expanded, f);
      OwnNamesMore(body, f);
      match body[last]
      case Field(name, t) =>
        var ff := [FlatField(c.home, name, Spell(p, t, c))];
        NamesJoin(r.fields, ff, f);
        assert Names(ff) == [name];
      case Mixin(n) =>
        var target := Target(p, c.home, n);
        if target.Some? && target.value !in expanded && target.value !in r.order {
          var k := target.value;
          var ic, more := MixinScope(p, k, n, c), expanded + Keys(r.order) + {k};
          var inner := Level(p, p.types[k].body, ic, more);
          LevelFields(p, p.types[k].body, ic, more, f);
          NamesJoin(r.fields, inner.fields, f);
          CountInMixin(p, r.order, k, inner.order, f);
        }
    }
  }

  lemma CountInMixin(p: Project, a: seq<Key>, k: Key, b: seq<Key>, f: string)
    ensures CountIn(p, a + [k] + b, f) == CountIn(p, a, f) + Count(OwnNames(BodyOf(p, k)), f) + CountIn(p, b, f)
  {
    assert (a + [k])[..|a|] == a;
    CountInJoin(p, a + [k], b, f);
  }

  /** A flattening yields the body's own fields and those of each type its
      mixins reach, exactly once. */
  lemma FieldsExactly(p: Project, body: seq<Member>, c: Scope, f: string)
    ensures var r := FlattenFields(p, body, c);
      && NoRepeat(r.order) && (forall k :: k in r.order <==> Promotes(p, c.home, body, k))
      && Count(Names(r.fields), f) == Count(OwnNames(body), f) + CountIn(p, r.order, f)
  {
    ExpandedExactly(p, body, c);
    LevelFields(p, body, c, {}, f);
  }

  // ---- The types the fields are spelled with ----

  /** A body and the scope it stands in. */
  datatype Site = Site(body: seq<Member>, scope: Scope)

  /** A mixin of a stands for b: the body it embeds, its parameters bound to
      the mixin's arguments as a's scope spells them. */
  ghost predicate Embeds(p: Project, a: Site, b: Site) {
    exists i :: 0 <= i < |a.body| && EmbedsAt(p, a, i, b)
  }

  ghost predicate EmbedsAt(p: Project, a: Site, i: nat, b: Site)
    requires i < |a.body|
  {
    && a.body[i].Mixin? && Target(p, a.scope.home, a.body[i].ref).Some?
    && var k := Target(p, a.scope.home, a.body[i].ref).value;
    b == Site(p.types[k].body, MixinScope(p, k, a.body[i].ref, a.scope))
  }

  ghost function Embeddings(p: Project): iset<(Site, Site)> { iset a, b | Embeds(p, a, b) :: (a, b) }

  /** ff is a field of the body at a, spelled in its scope. */
  ghost predicate SpelledAt(p: Project, a: Site, ff: FlatField) {
    exists i :: 0 <= i < |a.body| && a.body[i].Field? && a.body[i].name == ff.name && ff.home == a.scope.home &&
                ff.typ == Spell(p, a.body[i].typ, a.scope)
  }

  /** ff is a field of the body at a or of one its mixins lead to, spelled in
      the scope they lead to. */
  ghost predicate SpelledUnder(p: Project, a: Site, ff: FlatField) {
    exists b :: Leads(Embeddings(p), a, b) && SpelledAt(p, b, ff)
  }

  lemma SpelledHere(p: Project, a: Site, ff: FlatField)
    requires SpelledAt(p, a, ff)
    ensures SpelledUnder(p, a, ff)
  {
    LeadsSelf(Embeddings(p), a);
  }

  lemma SpelledBelow(p: Project, a: Site, b: Site, ff: FlatField)
    requires Embeds(p, a, b) && SpelledUnder(p, b, ff)
    ensures SpelledUnder(p, a, ff)
  {
    var c :| Leads(Embeddings(p), b, c) && SpelledAt(p, c, ff);
    LeadsUnder(Embeddings(p), a, b, c);
  }

  /** What the front of a body spells, the body spells. */
  lemma SpelledFront(p: Project, body: seq<Member>, c: Scope, n: nat, ff: FlatField)
    requires n <= |body| && SpelledUnder(p, Site(body[..n], c), ff)
    ensures SpelledUnder(p, Site(body, c), ff)
  {
    var front, all := Site(body[..n], c), Site(body, c);
    var b :| Leads(Embeddings(p), front, b) && SpelledAt(p, b, ff);
    if b == front {
      SpelledAtFront(p, body, c, n, ff);
      SpelledHere(p, all, ff);
    } else {
      var next := LeadsFirst(Embeddings(p), front, b);
      EmbedsFront(p, body, c, n, next);
      SpelledBelow(p, all, next, ff);
    }
  }

  lemma SpelledAtFront(p: Project, body: seq<Member>, c: Scope, n: nat, ff: FlatField)
    requires n <= |body| && SpelledAt(p, Site(body[..n], c), ff)
    ensures SpelledAt(p, Site(body, c), ff)
  {
    var i :| 0 <= i < n && body[..n][i].Field? && body[..n][i].name == ff.name && ff.home == c.home &&
             ff.typ == Spell(p, body[..n][i].typ, c);
    assert body[i] == body[..n][i];
  }

  lemma EmbedsFront(p: Project, body: seq<Member>, c: Scope, n: nat, b: Site)
    requires n <= |body| && Embeds(p, Site(body[..n], c), b)
    ensures Embeds(p, Site(body, c), b)
  {
    var i :| 0 <= i < n && EmbedsAt(p, Site(body[..n], c), i, b);
    assert EmbedsAt(p, Site(body, c), i, b);
  }

  lemma {:induction false} LevelSpelled(p: Project, body: seq<Member>, c: Scope, expanded: set<Key>, ff: FlatField)
    requires ff in Level(p, body, c, expanded).fields
    ensures SpelledUnder(p, Site(body, c), ff)
    decreases p.types.Keys - expanded, |body|
  {
    var last := |body| - 1;
    var r := Level(p, body[..last], c, expanded);
    if ff in r.fields {
      LevelSpelled(p, body[..last], c, expanded, ff);
      SpelledFront(p, body, c, last, ff);
    } else if body[last].Field? {
      SpelledHere(p, Site(body, c), ff);
    } else {
      var n := body[last].ref;
      var k := Target(p, c.home, n).value;
      var inner := MixinScope(p, k, n, c);
      LevelSpelled(p, p.types[k].body, inner, expanded + Keys(r.order) + {k}, ff);
      assert EmbedsAt(p, Site(body, c), last, Site(p.types[k].body, inner));
      SpelledBelow(p, Site(body, c), Site(p.types[k].body, inner), ff);
    }
  }

  /** Every field of a flattening is a field of the body or of a type its
      mixins lead to, its type spelled with the arguments of the mixins on the
      way. */
  lemma FieldsSpelled(p: Project, body: seq<Member>, c: Scope, ff: FlatField)
    requires ff in FlattenFields(p, body, c).fields
    ensures SpelledUnder(p, Site(body, c), ff)
  {
    LevelSpelled(p, body, c, {}, ff);
  }

  // ---- Completeness of a flattening ----

  ghost predicate NamesNoType(p: Project, home: string, body: seq<Member>) {
    exists i :: 0 <= i < |body| && body[i].Mixin? && Target(p, home, body[i].ref) == None
  }

  lemma NamesNoTypeMore(p: Project, home: string, body: seq<Member>)
    requires body != []
    ensures var last := |body| - 1; NamesNoType(p, home, body) <==>
      NamesNoType(p, home, body[..last]) || (body[last].Mixin? && Target(p, home, body[last].ref) == None)
  {
    var last := |body| - 1;
    if NamesNoType(p, home, body[..last]) {
      var i :| 0 <= i < last && body[..last][i].Mixin? && Target(p, home, body[..last][i].ref) == None;
      assert body[i] == body[..last][i];
    }
    if NamesNoType(p, home, body) {
      var i :| 0 <= i < |body| && body[i].Mixin? && Target(p, home, body[i].ref) == None;
      if i < last { assert body[..last][i] == body[i]; }
    }
  }

  ghost predicate SomeIncomplete(p: Project, order: seq<Key>) requires Keys(order) <= p.types.Keys {
    exists k :: k in Keys(order) && NamesNoType(p, k.pkg, p.types[k].body)
  }

  lemma {:induction false} LevelIncomplete(p: Project, body: seq<Member>, c: Scope, expanded: set<Key>)
    ensures var r := Level(p, body, c, expanded);
      && Keys(r.order) <= p.types.Keys
      && (r.incomplete <==> NamesNoType(p, c.home, body) || SomeIncomplete(p, r.order))
    decreases p.types.Keys - expanded, |body|
  {
    LevelOnce(p, body, c, expanded);
    if body != [] {
      var last := |body| - 1;
      var r := Level(p, body[..last], c, expanded);
      LevelIncomplete(p, body[..last], c, expanded);
      NamesNoTypeMore(p, c.home, body);
      if body[last].Mixin? {
        var target := Target(p, c.home, body[last].ref);
        if target.Some? && target.value !in expanded && target.value !in r.order {
          var k, n := target.value, body[last].ref;
          var ic, more := MixinScope(p, k, n, c), expanded + Keys(r.order) + {k};
          LevelIncomplete(p, p.types[k].body, ic, more);
          KeysJoin(r.order, k, Level(p, p.types[k].body, ic, more).order);
        }
      }
    }
  }

  /** The walk reports exactly the flattenings that met a mixin naming no type. */
  lemma IncompleteExactly(p: Project, body: seq<Member>, c: Scope)
    ensures FlattenFields(p, body, c).incomplete <==>
      NamesNoType(p, c.home, body) ||
      exists k :: k in p.types && Promotes(p, c.home, body, k) && NamesNoType(p, k.pkg, p.types[k].body)
  {
    LevelIncomplete(p, body, c, {});
    ExpandedExactly(p, body, c);
  }
}
