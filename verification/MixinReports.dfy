/** What the mixin check of a body reports: exactly the duplicate embeds, the
    mixins of something else than a type, those with the wrong number of
    arguments, the cycles and the field names reached twice. */
module MixinReports {
  import opened Ast
  import opened Spelling
  import opened Promotion
  import opened Mixins
  import opened Distinctness

  // ---- What is wrong with a body ----

  /** The name of n, as written, ends in seg. */
  ghost predicate EndsIn(n: NamedRef, seg: string) {
    (n.parts == [] && seg == "") || exists front :: n.parts == front + [seg]
  }

  /** Two mixins embed under one name. */
  ghost predicate EmbedsTwice(body: seq<Member>) {
    exists i, j, seg :: 0 <= i < j < |body| && body[i].Mixin? && body[j].Mixin? &&
      EndsIn(body[i].ref, seg) && EndsIn(body[j].ref, seg)
  }

  /** The mixin names an enum or a scalar, or gives a type too few or too many
      arguments. */
  predicate Unfit(p: Project, home: string, n: NamedRef) {
    RefKey(home, n).Some? && var k := RefKey(home, n).value;
    if k in p.types then |n.args| != |p.types[k].params| else k in p.values
  }

  ghost predicate SomeUnfit(p: Project, home: string, body: seq<Member>) {
    exists i :: 0 <= i < |body| && body[i].Mixin? && Unfit(p, home, body[i].ref)
  }

  predicate Names(home: string, m: Member, k: Key) { m.Mixin? && RefKey(home, m.ref) == Some(k) }

  /** A mixin of type k names the declaration host. */
  ghost predicate NamedBy(p: Project, k: Key, host: Key) {
    k in p.types && exists i :: 0 <= i < |p.types[k].body| && Names(k.pkg, p.types[k].body[i], host)
  }

  /** The family of top leads back to host, or holds a cycle. */
  ghost predicate Tangled(p: Project, host: Key, top: Key) {
    || top == host
    || (exists k :: InFamily(p, top, k) && NamedBy(p, k, host))
    || (exists k, m :: InFamily(p, top, k) && m in EmbeddedBy(p, k) && InFamily(p, m, k))
  }

  ghost predicate SomeTangled(p: Project, host: Key, body: seq<Member>) {
    exists top :: top in Embedded(p, host.pkg, body) && Tangled(p, host, top)
  }

  /** The i-th member of body is a mixin whose family has a field named f. */
  ghost predicate Brings(p: Project, home: string, body: seq<Member>, i: nat, f: string) {
    exists top, k :: MixesIn(p, home, body, i, top) && InFamily(p, top, k) && f in OwnNames(BodyOf(p, k))
  }

  /** A field name comes from the body and a mixin, or from two mixins. */
  ghost predicate ComesTwice(p: Project, home: string, body: seq<Member>) {
    exists i: nat, f :: Brings(p, home, body, i, f) &&
      (f in OwnNames(body) || exists j: nat :: j != i && Brings(p, home, body, j, f))
  }

  ghost predicate Wrong(p: Project, host: Key, body: seq<Member>) {
    || EmbedsTwice(body) || SomeUnfit(p, host.pkg, body) || SomeTangled(p, host, body)
    || ComesTwice(p, host.pkg, body)
  }

  // ---- Whatever is wrong is reported ----

  lemma EndsInLeaf(n: NamedRef, seg: string)
    ensures EndsIn(n, seg) <==> Leaf(n) == seg
  {
    if n.parts != [] {
      var front := n.parts[..|n.parts| - 1];
      assert n.parts == front + [n.parts[|n.parts| - 1]];
    }
  }

  /** A silent check of a body has collected each of its mixins in silence. */
  lemma {:induction false} MixinCollected(p: Project, host: Key, body: seq<Member>, start: Seen, i: nat)
    returns (s: Seen)
    requires i < |body| && body[i].Mixin? && !CheckMembers(p, host, body, start).seen.reported
    ensures !Unfit(p, host.pkg, body[i].ref)
    ensures var k := Target(p, host.pkg, body[i].ref);
      k.Some? ==> !CollectType(p, k.value, body[i].ref.parts, s, {host}).reported
  {
    var last := |body| - 1;
    LastLater(p, host, body, start);
    if i == last {
      s := CheckMembers(p, host, body[..last], start).seen;
    } else {
      s := MixinCollected(p, host, body[..last], start, i);
    }
  }

  /** A silent collection of a body has met no mixin of a type of the stack. */
  lemma {:induction false} BodyNames(p: Project, home: string, body: seq<Member>, origin: Origin, s: Seen,
                                     stack: set<Key>, i: nat, h: Key)
    requires !CollectBody(p, home, body, origin, s, stack).reported && i < |body| && Names(home, body[i], h)
    ensures h !in stack
  {
    var last := |body| - 1;
    var s' := CollectBody(p, home, body[..last], origin, s, stack);
    if body[last].Mixin? && RefKey(home, body[last].ref).Some? {
      TypeLater(p, RefKey(home, body[last].ref).value, origin, s', stack);
    }
    if i < last { BodyNames(p, home, body[..last], origin, s, stack, i, h); }
  }

  lemma {:induction false} FamilyNames(p: Project, path: seq<Key>, origin: Origin, s: Seen, stack: set<Key>, h: Key)
    requires IsEmbedding(p, path) && !CollectType(p, path[0], origin, s, stack).reported && h in stack
    ensures !NamedBy(p, path[|path| - 1], h)
    decreases |path|
  {
    var k := path[0];
    var body := p.types[k].body;
    if |path| == 1 {
      if i :| 0 <= i < |body| && Names(k.pkg, body[i], h) {
        BodyNames(p, k.pkg, body, origin, s, stack + {k}, i, h);
      }
    } else {
      assert path[1] in EmbeddedBy(p, path[0]);
      EmbeddingTail(p, path);
      var s0 := BodyCollects(p, k.pkg, body, origin, s, stack + {k}, path[1]);
      FamilyNames(p, path[1..], origin, s0, stack + {k}, h);
    }
  }

  lemma {:induction false} FamilyAcyclic(p: Project, path: seq<Key>, origin: Origin, s: Seen, stack: set<Key>, m: Key)
    requires IsEmbedding(p, path) && !CollectType(p, path[0], origin, s, stack).reported
    requires m in EmbeddedBy(p, path[|path| - 1])
    ensures !InFamily(p, m, path[|path| - 1])
    decreases |path|
  {
    var k := path[0];
    var body := p.types[k].body;
    if |path| == 1 {
      var s0 := BodyCollects(p, k.pkg, body, origin, s, stack + {k}, m);
      if InFamily(p, m, k) {
        var back :| IsEmbedding(p, back) && back[0] == m && back[|back| - 1] == k;
        FamilySeen(p, back, origin, s0, stack + {k});
      }
    } else {
      assert path[1] in EmbeddedBy(p, path[0]);
      EmbeddingTail(p, path);
      var s0 := BodyCollects(p, k.pkg, body, origin, s, stack + {k}, path[1]);
      FamilyAcyclic(p, path[1..], origin, s0, stack + {k}, m);
    }
  }

  lemma CollectedUntangled(p: Project, host: Key, top: Key, origin: Origin, s: Seen)
    requires top in p.types && !CollectType(p, top, origin, s, {host}).reported
    ensures !Tangled(p, host, top)
  {
    forall k | InFamily(p, top, k) ensures !NamedBy(p, k, host) {
      var path :| IsEmbedding(p, path) && path[0] == top && path[|path| - 1] == k;
      FamilyNames(p, path, origin, s, {host}, host);
    }
    forall k, m | InFamily(p, top, k) && m in EmbeddedBy(p, k) ensures !InFamily(p, m, k) {
      var path :| IsEmbedding(p, path) && path[0] == top && path[|path| - 1] == k;
      FamilyAcyclic(p, path, origin, s, {host}, m);
    }
  }

  lemma SilentUntangled(p: Project, host: Key, body: seq<Member>)
    requires !Reports(p, host, body)
    ensures !SomeTangled(p, host, body) && !SomeUnfit(p, host.pkg, body)
  {
    var start := Seen(SeeOwn(host, body), false);
    forall top | top in Embedded(p, host.pkg, body) ensures !Tangled(p, host, top) {
      var i := EmbeddedAt(p, host.pkg, body, top);
      var s := MixinCollected(p, host, body, start, i);
      CollectedUntangled(p, host, top, body[i].ref.parts, s);
    }
    forall i | 0 <= i < |body| && body[i].Mixin? ensures !Unfit(p, host.pkg, body[i].ref) {
      var s := MixinCollected(p, host, body, start, i);
    }
  }

  lemma SilentOnce(p: Project, host: Key, body: seq<Member>)
    requires !Reports(p, host, body)
    ensures !EmbedsTwice(body)
  {
    forall i, j, seg | 0 <= i < j < |body| && body[i].Mixin? && body[j].Mixin? && EndsIn(body[i].ref, seg)
      ensures !EndsIn(body[j].ref, seg)
    {
      LeavesDiffer(p, host, body, Seen(SeeOwn(host, body), false), i, j);
      EndsInLeaf(body[i].ref, seg);
      EndsInLeaf(body[j].ref, seg);
    }
  }

  lemma SilentApart(p: Project, host: Key, body: seq<Member>)
    requires !Reports(p, host, body)
    ensures !ComesTwice(p, host.pkg, body)
  {
    forall i: nat, f | Brings(p, host.pkg, body, i, f)
      ensures f !in OwnNames(body) && forall j: nat :: j != i ==> !Brings(p, host.pkg, body, j, f)
    {
      var x, k :| MixesIn(p, host.pkg, body, i, x) && InFamily(p, x, k) && f in OwnNames(BodyOf(p, k));
      OwnApart(p, host, body, i, x, k, f);
      forall j: nat | j != i ensures !Brings(p, host.pkg, body, j, f) {
        if Brings(p, host.pkg, body, j, f) {
          var y, m :| MixesIn(p, host.pkg, body, j, y) && InFamily(p, y, m) && f in OwnNames(BodyOf(p, m));
          if i < j { MembersApart(p, host, body, i, x, j, y, k, m, f); }
          else { MembersApart(p, host, body, j, y, i, x, m, k, f); }
        }
      }
    }
  }

  // ---- Nothing else is reported ----

  ghost predicate FamilyHas(p: Project, k: Key, f: string) {
    exists j :: InFamily(p, k, j) && f in OwnNames(BodyOf(p, j))
  }

  /** The family of k names nothing of the stack and holds no cycle. */
  ghost predicate Clear(p: Project, k: Key, stack: set<Key>) {
    && k !in stack
    && (forall j, h :: InFamily(p, k, j) && h in stack ==> !NamedBy(p, j, h))
    && (forall j, m :: InFamily(p, k, j) && m in EmbeddedBy(p, j) ==> !InFamily(p, m, j))
  }

  lemma NamesEmbedded(p: Project, k: Key, i: nat, m: Key)
    requires k in p.types && i < |p.types[k].body| && Names(k.pkg, p.types[k].body[i], m)
    ensures NamedBy(p, k, m) && (m in p.types ==> m in EmbeddedBy(p, k))
  {
    assert m in p.types ==> Target(p, k.pkg, p.types[k].body[i].ref) == Some(m);
  }

  lemma ClearBelow(p: Project, k: Key, stack: set<Key>, m: Key)
    requires Clear(p, k, stack) && k in p.types && m in EmbeddedBy(p, k) && NamedBy(p, k, m)
    ensures Clear(p, m, stack + {k})
  {
    FamilySelf(p, k);
    forall j | InFamily(p, m, j) ensures InFamily(p, k, j) { FamilyUnder(p, k, m, j); }
    forall j, h | InFamily(p, m, j) && h in stack + {k} ensures !NamedBy(p, j, h) {
      if h == k && NamedBy(p, j, k) {
        var i :| 0 <= i < |p.types[j].body| && Names(j.pkg, p.types[j].body[i], k);
        NamesEmbedded(p, j, i, k);
      }
    }
  }

  /** No field of the family is in s from elsewhere. */
  ghost predicate Agrees(p: Project, k: Key, origin: Origin, s: Seen) {
    forall f :: FamilyHas(p, k, f) && f in s.from ==> s.from[f] == origin
  }

  /** Nothing was reported from s to s', and only fields of the family were
      added. */
  ghost predicate Adds(p: Project, k: Key, origin: Origin, s: Seen, s': Seen) {
    && !s'.reported
    && forall f :: f in s'.from ==>
         (f in s.from && s'.from[f] == s.from[f]) || (FamilyHas(p, k, f) && s'.from[f] == origin)
  }

  lemma AgreesBelow(p: Project, k: Key, m: Key, origin: Origin, s: Seen, s': Seen)
    requires k in p.types && m in EmbeddedBy(p, k) && Agrees(p, k, origin, s) && Adds(p, k, origin, s, s')
    ensures Agrees(p, m, origin, s')
  {
    forall f | FamilyHas(p, m, f) ensures FamilyHas(p, k, f) { FamilyHasUnder(p, k, m, f); }
  }

  lemma FamilyHasUnder(p: Project, k: Key, m: Key, f: string)
    requires k in p.types && m in EmbeddedBy(p, k) && FamilyHas(p, m, f)
    ensures FamilyHas(p, k, f)
  {
    var j :| InFamily(p, m, j) && f in OwnNames(BodyOf(p, j));
    FamilyUnder(p, k, m, j);
  }

  lemma AddsMore(p: Project, k: Key, m: Key, origin: Origin, s: Seen, s': Seen, s'': Seen)
    requires k in p.types && m in EmbeddedBy(p, k) && Adds(p, k, origin, s, s') && Adds(p, m, origin, s', s'')
    ensures Adds(p, k, origin, s, s'')
  {
    forall f | FamilyHas(p, m, f) ensures FamilyHas(p, k, f) { FamilyHasUnder(p, k, m, f); }
  }

  lemma {:induction false} TypeSilent(p: Project, k: Key, origin: Origin, s: Seen, stack: set<Key>)
    requires k in p.types && Clear(p, k, stack) && !s.reported && Agrees(p, k, origin, s)
    ensures Adds(p, k, origin, s, CollectType(p, k, origin, s, stack))
    decreases p.types.Keys - stack, 0
  {
    BodySilent(p, k, |p.types[k].body|, origin, s, stack);
    assert p.types[k].body[..|p.types[k].body|] == p.types[k].body;
  }

  lemma {:induction false} BodySilent(p: Project, k: Key, n: nat, origin: Origin, s: Seen, stack: set<Key>)
    requires k in p.types && n <= |p.types[k].body| && Clear(p, k, stack) && !s.reported && Agrees(p, k, origin, s)
    ensures Adds(p, k, origin, s, CollectBody(p, k.pkg, p.types[k].body[..n], origin, s, stack + {k}))
    decreases p.types.Keys - (stack + {k}), n + 1
  {
    var body := p.types[k].body;
    if n > 0 {
      var last := n - 1;
      assert body[..n][..last] == body[..last];
      BodySilent(p, k, last, origin, s, stack);
      var s' := CollectBody(p, k.pkg, body[..last], origin, s, stack + {k});
      if body[last].Field? {
        OwnFieldHas(p, k, last);
      } else if RefKey(k.pkg, body[last].ref).Some? {
        NestedSilent(p, k, last, RefKey(k.pkg, body[last].ref).value, origin, s, s', stack);
      }
    }
  }

  /** A mixin of the body of k, collected after s'. */
  lemma {:induction false} NestedSilent(p: Project, k: Key, i: nat, m: Key, origin: Origin, s: Seen, s': Seen,
                                        stack: set<Key>)
    requires k in p.types && i < |p.types[k].body| && Names(k.pkg, p.types[k].body[i], m)
    requires Clear(p, k, stack) && Agrees(p, k, origin, s) && Adds(p, k, origin, s, s')
    ensures Adds(p, k, origin, s, CollectType(p, m, origin, s', stack + {k}))
    decreases p.types.Keys - (stack + {k}), 1
  {
    NamesEmbedded(p, k, i, m);
    FamilySelf(p, k);
    if m in p.types {
      ClearBelow(p, k, stack, m);
      AgreesBelow(p, k, m, origin, s, s');
      TypeSilent(p, m, origin, s', stack + {k});
      AddsMore(p, k, m, origin, s, s', CollectType(p, m, origin, s', stack + {k}));
    }
  }

  lemma OwnFieldHas(p: Project, k: Key, i: nat)
    requires k in p.types && i < |p.types[k].body| && p.types[k].body[i].Field?
    ensures FamilyHas(p, k, p.types[k].body[i].name)
  {
    FamilySelf(p, k);
    OwnNameIn(p.types[k].body, i);
  }

  lemma {:induction false} OwnNameIn(body: seq<Member>, i: nat)
    requires i < |body| && body[i].Field?
    ensures body[i].name in OwnNames(body)
  {
    if i < |body| - 1 { OwnNameIn(body[..|body| - 1], i); }
  }

  /** The fields seen are the body's own or come from the first n members. */
  ghost predicate OnlyFrom(p: Project, host: Key, body: seq<Member>, n: nat, s: Seen) {
    forall f :: f in s.from ==> f in OwnNames(body) || exists i: nat :: i < n && Brings(p, host.pkg, body, i, f)
  }

  /** What a check in silence has seen after the first n members. */
  ghost predicate Quiet(p: Project, host: Key, body: seq<Member>, n: nat, c: Check)
    requires n <= |body|
  {
    && !c.seen.reported
    && (forall leaf :: leaf in c.leaves ==> exists i :: 0 <= i < n && body[i].Mixin? && Leaf(body[i].ref) == leaf)
    && OnlyFrom(p, host, body, n, c.seen)
  }

  lemma {:induction false} OwnKeys(host: Key, body: seq<Member>, f: string)
    requires f in SeeOwn(host, body)
    ensures f in OwnNames(body)
  {
    if f in SeeOwn(host, body[..|body| - 1]) { OwnKeys(host, body[..|body| - 1], f); }
  }

  lemma {:induction false} MembersQuiet(p: Project, host: Key, body: seq<Member>, n: nat)
    requires n <= |body| && !Wrong(p, host, body)
    ensures Quiet(p, host, body, n, CheckMembers(p, host, body[..n], Seen(SeeOwn(host, body), false)))
  {
    var start := Seen(SeeOwn(host, body), false);
    if n == 0 {
      forall f | f in start.from ensures f in OwnNames(body) { OwnKeys(host, body, f); }
    } else {
      var last := n - 1;
      assert body[..n][..last] == body[..last];
      MembersQuiet(p, host, body, last);
      if body[last].Mixin? { MemberQuiet(p, host, body, last, CheckMembers(p, host, body[..last], start)); }
    }
  }

  lemma MemberQuiet(p: Project, host: Key, body: seq<Member>, i: nat, c: Check)
    requires i < |body| && body[i].Mixin? && !Wrong(p, host, body) && Quiet(p, host, body, i, c)
    ensures var n := body[i].ref;
      Leaf(n) !in c.leaves &&
      Quiet(p, host, body, i + 1, Check(ProcessMixin(p, host, n, c.seen), c.leaves + {Leaf(n)}))
  {
    var n := body[i].ref;
    if Leaf(n) in c.leaves {
      var j :| 0 <= j < i && body[j].Mixin? && Leaf(body[j].ref) == Leaf(n);
      EndsInLeaf(body[j].ref, Leaf(n));
      EndsInLeaf(n, Leaf(n));
    }
    assert !Unfit(p, host.pkg, n);
    var k := Target(p, host.pkg, n);
    if k.Some? { MixinQuiet(p, host, body, i, c.seen, k.value); }
  }

  lemma MixinQuiet(p: Project, host: Key, body: seq<Member>, i: nat, s: Seen, k: Key)
    requires MixesIn(p, host.pkg, body, i, k) && !Wrong(p, host, body) && !s.reported
    requires OnlyFrom(p, host, body, i, s)
    ensures var s' := CollectType(p, k, body[i].ref.parts, s, {host});
      && !s'.reported
      && forall f :: f in s'.from ==> f in s.from || Brings(p, host.pkg, body, i, f)
  {
    var origin := body[i].ref.parts;
    assert k in Embedded(p, host.pkg, body) && !Tangled(p, host, k);
    forall f | FamilyHas(p, k, f) ensures Brings(p, host.pkg, body, i, f) && f !in s.from {
      var j :| InFamily(p, k, j) && f in OwnNames(BodyOf(p, j));
      assert Brings(p, host.pkg, body, i, f);
    }
    TypeSilent(p, k, origin, s, {host});
  }

  /** The check of a body reports exactly when something is wrong with it. */
  lemma ReportsExactly(p: Project, host: Key, body: seq<Member>)
    ensures Reports(p, host, body) <==> Wrong(p, host, body)
  {
    if !Reports(p, host, body) {
      SilentOnce(p, host, body);
      SilentUntangled(p, host, body);
      SilentApart(p, host, body);
    }
    if !Wrong(p, host, body) {
      MembersQuiet(p, host, body, |body|);
      assert body[..|body|] == body;
    }
  }
}
