/** Where the mixin checks are silent, flattening repeats no field name. */
module Distinctness {
  import opened Ast
  import opened Spelling
  import opened Flatten
  import opened Promotion
  import opened Mixins

  // ---- What a silent collection has seen ----

  ghost predicate Later(s: Seen, s': Seen) {
    && (s.reported ==> s'.reported)
    && forall f :: f in s.from ==> f in s'.from && s'.from[f] == s.from[f]
  }

  lemma {:induction false} TypeLater(p: Project, k: Key, origin: Origin, s: Seen, stack: set<Key>)
    ensures Later(s, CollectType(p, k, origin, s, stack))
    decreases p.types.Keys - stack, 0
  {
    if k !in stack && k in p.types { BodyLater(p, k.pkg, p.types[k].body, origin, s, stack + {k}); }
  }

  lemma {:induction false} BodyLater(p: Project, home: string, body: seq<Member>, origin: Origin, s: Seen,
                                     stack: set<Key>)
    ensures Later(s, CollectBody(p, home, body, origin, s, stack))
    decreases p.types.Keys - stack, |body| + 1
  {
    if body != [] {
      var last := |body| - 1;
      BodyLater(p, home, body[..last], origin, s, stack);
      var s' := CollectBody(p, home, body[..last], origin, s, stack);
      if body[last].Mixin? && RefKey(home, body[last].ref).Some? {
        TypeLater(p, RefKey(home, body[last].ref).value, origin, s', stack);
      }
    }
  }

  /** A silent collection has every field of the body from its own origin. */
  lemma {:induction false} BodySeen(p: Project, home: string, body: seq<Member>, origin: Origin, s: Seen,
                                    stack: set<Key>, f: string)
    requires !CollectBody(p, home, body, origin, s, stack).reported && f in OwnNames(body)
    ensures var s' := CollectBody(p, home, body, origin, s, stack); f in s'.from && s'.from[f] == origin
  {
    var last := |body| - 1;
    var s' := CollectBody(p, home, body[..last], origin, s, stack);
    if body[last].Mixin? && RefKey(home, body[last].ref).Some? {
      TypeLater(p, RefKey(home, body[last].ref).value, origin, s', stack);
    }
    if !(body[last].Field? && body[last].name == f) {
      BodySeen(p, home, body[..last], origin, s, stack, f);
    }
  }

  /** A silent collection has collected every type the body embeds. */
  lemma {:induction false} BodyCollects(p: Project, home: string, body: seq<Member>, origin: Origin, s: Seen,
                                        stack: set<Key>, k: Key)
    returns (s0: Seen)
    requires !CollectBody(p, home, body, origin, s, stack).reported && k in Embedded(p, home, body)
    ensures !CollectType(p, k, origin, s0, stack).reported
    ensures Later(CollectType(p, k, origin, s0, stack), CollectBody(p, home, body, origin, s, stack))
  {
    var last := |body| - 1;
    var s' := CollectBody(p, home, body[..last], origin, s, stack);
    EmbeddedMore(p, home, body);
    if body[last].Mixin? && Target(p, home, body[last].ref) == Some(k) {
      s0 := s';
    } else {
      if body[last].Mixin? && RefKey(home, body[last].ref).Some? {
        TypeLater(p, RefKey(home, body[last].ref).value, origin, s', stack);
      }
      s0 := BodyCollects(p, home, body[..last], origin, s, stack, k);
    }
  }

  lemma EmbeddingTail(p: Project, path: seq<Key>)
    requires IsEmbedding(p, path) && |path| > 1
    ensures IsEmbedding(p, path[1..])
  {
    var rest := path[1..];
    forall i | 0 <= i < |rest| - 1 ensures rest[i + 1] in EmbeddedBy(p, rest[i]) {
      assert path[i + 2] in EmbeddedBy(p, path[i + 1]);
    }
  }

  /** A silent collection of a type has every field of its family from its
      own origin, and its family holds no type of the stack: every cycle and
      every conflict is found. */
  lemma {:induction false} FamilySeen(p: Project, path: seq<Key>, origin: Origin, s: Seen, stack: set<Key>)
    requires IsEmbedding(p, path) && !CollectType(p, path[0], origin, s, stack).reported
    ensures path[|path| - 1] !in stack
    ensures var s' := CollectType(p, path[0], origin, s, stack);
      forall f :: f in OwnNames(p.types[path[|path| - 1]].body) ==> f in s'.from && s'.from[f] == origin
    decreases |path|
  {
    var k := path[0];
    var body := p.types[k].body;
    if |path| == 1 {
      forall f | f in OwnNames(body)
        ensures var s' := CollectType(p, k, origin, s, stack); f in s'.from && s'.from[f] == origin
      {
        BodySeen(p, k.pkg, body, origin, s, stack + {k}, f);
      }
    } else {
      var rest := path[1..];
      assert path[1] in EmbeddedBy(p, path[0]);
      EmbeddingTail(p, path);
      var s0 := BodyCollects(p, k.pkg, body, origin, s, stack + {k}, path[1]);
      FamilySeen(p, rest, origin, s0, stack + {k});
    }
  }

  // ---- What a silent check of a host has seen ----

  lemma ProcessLater(p: Project, host: Key, n: NamedRef, s: Seen)
    ensures Later(s, ProcessMixin(p, host, n, s))
  {
    var k := RefKey(host.pkg, n);
    if k.Some? { TypeLater(p, k.value, n.parts, s, {host}); }
  }

  lemma {:induction false} MembersLater(p: Project, host: Key, body: seq<Member>, start: Seen)
    ensures Later(start, CheckMembers(p, host, body, start).seen)
    ensures forall i :: 0 <= i < |body| && body[i].Mixin? ==>
        Leaf(body[i].ref) in CheckMembers(p, host, body, start).leaves
  {
    if body != [] {
      var last := |body| - 1;
      MembersLater(p, host, body[..last], start);
      assert forall i :: 0 <= i < last ==> body[i] == body[..last][i];
      if body[last].Mixin? {
        ProcessLater(p, host, body[last].ref, CheckMembers(p, host, body[..last], start).seen);
      }
    }
  }

  lemma LastLater(p: Project, host: Key, body: seq<Member>, start: Seen)
    requires body != []
    ensures Later(CheckMembers(p, host, body[..|body| - 1], start).seen, CheckMembers(p, host, body, start).seen)
  {
    var last := |body| - 1;
    if body[last].Mixin? {
      ProcessLater(p, host, body[last].ref, CheckMembers(p, host, body[..last], start).seen);
    }
  }

  /** The i-th member of body embeds k. */
  predicate MixesIn(p: Project, home: string, body: seq<Member>, i: nat, k: Key) {
    i < |body| && body[i].Mixin? && Target(p, home, body[i].ref) == Some(k)
  }

  /** A silent check has every field its i-th member promotes from that
      member, which promotes no host. */
  lemma {:induction false} MemberSeen(p: Project, host: Key, body: seq<Member>, start: Seen, i: nat, top: Key, k: Key)
    requires !CheckMembers(p, host, body, start).seen.reported
    requires MixesIn(p, host.pkg, body, i, top) && InFamily(p, top, k)
    ensures k in p.types && k != host
    ensures var s := CheckMembers(p, host, body, start).seen;
      forall f :: f in OwnNames(p.types[k].body) ==> f in s.from && s.from[f] == body[i].ref.parts
  {
    var last := |body| - 1;
    LastLater(p, host, body, start);
    if i == last {
      var path :| IsEmbedding(p, path) && path[0] == top && path[|path| - 1] == k;
      FamilySeen(p, path, body[i].ref.parts, CheckMembers(p, host, body[..last], start).seen, {host});
    } else {
      MemberSeen(p, host, body[..last], start, i, top, k);
    }
  }

  lemma {:induction false} LeavesDiffer(p: Project, host: Key, body: seq<Member>, start: Seen, i: nat, j: nat)
    requires !CheckMembers(p, host, body, start).seen.reported
    requires i < j < |body| && body[i].Mixin? && body[j].Mixin?
    ensures Leaf(body[i].ref) != Leaf(body[j].ref)
  {
    var last := |body| - 1;
    LastLater(p, host, body, start);
    if j == last {
      MembersLater(p, host, body[..last], start);
      assert body[..last][i] == body[i];
    } else {
      LeavesDiffer(p, host, body[..last], start, i, j);
    }
  }

  lemma {:induction false} OwnSeen(host: Key, body: seq<Member>, f: string)
    requires f in OwnNames(body)
    ensures f in SeeOwn(host, body) && SeeOwn(host, body)[f] == [host.name]
  {
    var last := |body| - 1;
    if f in OwnNames(body[..last]) { OwnSeen(host, body[..last], f); } else { OwnOnly(host, body[..last]); }
  }

  lemma {:induction false} OwnOnly(host: Key, body: seq<Member>)
    ensures forall f :: f in SeeOwn(host, body) ==> SeeOwn(host, body)[f] == [host.name]
  {
    if body != [] { OwnOnly(host, body[..|body| - 1]); }
  }

  /** No field of a silent host is one a mixin of it promotes. */
  lemma OwnApart(p: Project, host: Key, body: seq<Member>, i: nat, top: Key, k: Key, f: string)
    requires !Reports(p, host, body) && MixesIn(p, host.pkg, body, i, top) && InFamily(p, top, k)
    ensures k in p.types && !(f in OwnNames(body) && f in OwnNames(p.types[k].body))
  {
    var start := Seen(SeeOwn(host, body), false);
    FamilySelf(p, top);
    MemberSeen(p, host, body, start, i, top, top);
    assert body[i].ref.parts != [host.name];
    MemberSeen(p, host, body, start, i, top, k);
    MembersLater(p, host, body, start);
    if f in OwnNames(body) { OwnSeen(host, body, f); }
  }

  /** Two mixins of a silent host promote no common field. */
  lemma MembersApart(p: Project, host: Key, body: seq<Member>, i: nat, x: Key, j: nat, y: Key, k: Key, m: Key,
                     f: string)
    requires !Reports(p, host, body) && i < j
    requires MixesIn(p, host.pkg, body, i, x) && InFamily(p, x, k)
    requires MixesIn(p, host.pkg, body, j, y) && InFamily(p, y, m)
    ensures k in p.types && m in p.types && !(f in OwnNames(p.types[k].body) && f in OwnNames(p.types[m].body))
  {
    var start := Seen(SeeOwn(host, body), false);
    MemberSeen(p, host, body, start, i, x, k);
    MemberSeen(p, host, body, start, j, y, m);
    LeavesDiffer(p, host, body, start, i, j);
  }

  // ---- A silent project ----

  ghost predicate Silent(p: Project) {
    forall k :: k in p.types ==> !Reports(p, k, p.types[k].body)
  }

  ghost predicate OwnDistinct(p: Project) {
    forall k :: k in p.types ==> NoRepeat(OwnNames(p.types[k].body))
  }

  ghost function Family(p: Project, top: Key): set<Key> { set k | k in p.types && InFamily(p, top, k) }

  lemma EmbeddedAt(p: Project, home: string, body: seq<Member>, k: Key) returns (i: nat)
    requires k in Embedded(p, home, body)
    ensures MixesIn(p, home, body, i, k)
  {
    i :| 0 <= i < |body| && body[i].Mixin? && Target(p, home, body[i].ref) == Some(k);
  }

  /** A proper member of a family is reached through a mixin of its top. */
  lemma FamilyBelow(p: Project, top: Key, k: Key) returns (m: Key)
    requires InFamily(p, top, k) && k != top
    ensures top in p.types && m in EmbeddedBy(p, top) && InFamily(p, m, k)
  {
    var path :| IsEmbedding(p, path) && path[0] == top && path[|path| - 1] == k;
    m := path[1];
    assert path[1] in EmbeddedBy(p, path[0]);
    EmbeddingTail(p, path);
    assert path[1..][0] == m && path[1..][|path| - 2] == k;
  }

  lemma FamilyShrinks(p: Project, top: Key, m: Key)
    requires Silent(p) && top in p.types && m in EmbeddedBy(p, top)
    ensures Family(p, m) < Family(p, top)
  {
    var i := EmbeddedAt(p, top.pkg, p.types[top].body, m);
    forall k | k in Family(p, m) ensures k in Family(p, top) && k != top {
      FamilyUnder(p, top, m, k);
      MemberSeen(p, top, p.types[top].body, Seen(SeeOwn(top, p.types[top].body), false), i, m, k);
    }
    FamilySelf(p, top);
    assert top in Family(p, top) && top !in Family(p, m);
  }

  /** Types that a silent host promotes and that share a field name come
      through the same mixin. */
  lemma SameMixin(p: Project, host: Key, body: seq<Member>, x: Key, k: Key, y: Key, m: Key, f: string)
    requires !Reports(p, host, body) && x in Embedded(p, host.pkg, body) && y in Embedded(p, host.pkg, body)
    requires InFamily(p, x, k) && InFamily(p, y, m)
    requires f in OwnNames(BodyOf(p, k)) && f in OwnNames(BodyOf(p, m))
    ensures x == y
  {
    var i := EmbeddedAt(p, host.pkg, body, x);
    var j := EmbeddedAt(p, host.pkg, body, y);
    if i < j {
      MembersApart(p, host, body, i, x, j, y, k, m, f);
    } else if j < i {
      MembersApart(p, host, body, j, y, i, x, m, k, f);
    }
  }

  /** In a silent project the types of a family share no field name. */
  lemma {:induction false} FamilyApart(p: Project, top: Key, k: Key, m: Key, f: string)
    requires Silent(p) && top in p.types && InFamily(p, top, k) && InFamily(p, top, m)
    requires f in OwnNames(BodyOf(p, k)) && f in OwnNames(BodyOf(p, m))
    ensures k == m
    decreases Family(p, top)
  {
    var body := p.types[top].body;
    if k == top && m != top {
      var y := FamilyBelow(p, top, m);
      var j := EmbeddedAt(p, top.pkg, body, y);
      OwnApart(p, top, body, j, y, m, f);
    } else if m == top && k != top {
      var x := FamilyBelow(p, top, k);
      var i := EmbeddedAt(p, top.pkg, body, x);
      OwnApart(p, top, body, i, x, k, f);
    } else if k != top {
      var x := FamilyBelow(p, top, k);
      var y := FamilyBelow(p, top, m);
      SameMixin(p, top, body, x, k, y, m, f);
      FamilyShrinks(p, top, x);
      FamilyApart(p, x, k, m, f);
    }
  }

  // ---- Flattened names ----

  lemma CountOwn(names: seq<string>, f: string)
    ensures f in names <==> Count(names, f) > 0
    ensures NoRepeat(names) ==> Count(names, f) <= 1
    decreases |names|
  {
    if names != [] {
      var last := |names| - 1;
      CountOwn(names[..last], f);
      assert names == names[..last] + [names[last]];
      if NoRepeat(names) && names[last] == f { assert f !in names[..last]; }
    }
  }

  lemma {:induction false} CountedSomewhere(p: Project, order: seq<Key>, f: string) returns (k: Key)
    requires CountIn(p, order, f) > 0
    ensures k in order && f in OwnNames(BodyOf(p, k))
  {
    var last := |order| - 1;
    CountOwn(OwnNames(BodyOf(p, order[last])), f);
    if f in OwnNames(BodyOf(p, order[last])) { k := order[last]; } else { k := CountedSomewhere(p, order[..last], f); }
  }

  lemma {:induction false} CountedOnce(p: Project, order: seq<Key>, f: string)
    requires NoRepeat(order) && OwnDistinct(p)
    requires forall k, m :: k in order && m in order && f in OwnNames(BodyOf(p, k)) && f in OwnNames(BodyOf(p, m)) ==>
        k == m
    ensures CountIn(p, order, f) <= 1
  {
    if order != [] {
      var last := |order| - 1;
      var front, k := order[..last], order[last];
      assert forall m :: m in front ==> m in order;
      CountedOnce(p, front, f);
      CountOwn(OwnNames(BodyOf(p, k)), f);
      if CountIn(p, front, f) > 0 {
        var m := CountedSomewhere(p, front, f);
        assert k !in front;
      }
    }
  }

  lemma {:induction false} RepeatCounts(names: seq<string>, i: nat, j: nat)
    requires i < j < |names| && names[i] == names[j]
    ensures Count(names, names[i]) >= 2
  {
    var a, b := names[..j], names[j..];
    assert names == a + b;
    assert names[i] in a by { assert a[i] == names[i]; }
    assert names[j] in b by { assert b[0] == names[j]; }
    CountOwn(a, names[i]);
    CountOwn(b, names[i]);
  }

  /** If the mixin checks of every type and of the host are silent and no body
      repeats a field of its own, flattening the host repeats no field name. */
  lemma FlattenedDistinct(p: Project, host: Key, body: seq<Member>, c: Scope)
    requires Silent(p) && OwnDistinct(p) && c.home == host.pkg
    requires !Reports(p, host, body) && NoRepeat(OwnNames(body))
    ensures NoRepeat(Names(FlattenFields(p, body, c).fields))
  {
    var names := Names(FlattenFields(p, body, c).fields);
    forall i, j | 0 <= i < j < |names| ensures names[i] != names[j] {
      if names[i] == names[j] {
        RepeatCounts(names, i, j);
        FlattenedOnce(p, host, body, c, names[i]);
      }
    }
  }

  lemma FlattenedOnce(p: Project, host: Key, body: seq<Member>, c: Scope, f: string)
    requires Silent(p) && OwnDistinct(p) && c.home == host.pkg
    requires !Reports(p, host, body) && NoRepeat(OwnNames(body))
    ensures Count(Names(FlattenFields(p, body, c).fields), f) <= 1
  {
    var order := FlattenFields(p, body, c).order;
    FieldsExactly(p, body, c, f);
    forall k, m | k in order && m in order && f in OwnNames(BodyOf(p, k)) && f in OwnNames(BodyOf(p, m))
      ensures k == m
    {
      var x :| x in Embedded(p, host.pkg, body) && InFamily(p, x, k);
      var y :| y in Embedded(p, host.pkg, body) && InFamily(p, y, m);
      SameMixin(p, host, body, x, k, y, m, f);
      FamilyApart(p, x, k, m, f);
    }
    CountedOnce(p, order, f);
    CountOwn(OwnNames(body), f);
    if f in OwnNames(body) && CountIn(p, order, f) > 0 {
      var k := CountedSomewhere(p, order, f);
      var x :| x in Embedded(p, host.pkg, body) && InFamily(p, x, k);
      var i := EmbeddedAt(p, host.pkg, body, x);
      OwnApart(p, host, body, i, x, k, f);
    }
  }
}
