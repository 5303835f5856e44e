/** Where each field of a flattening stands, and which of several mixins of one
    type it comes through: everything goes by the order of the bodies. */
module FieldOrder {
  import opened Ast
  import opened Spelling
  import opened Flatten
  import opened Promotion
  import opened Ways

  // ---- Ways through bodies, member by member ----

  /** The type that the i-th member of a embeds, and its body in the scope that
      member gives it. */
  function Embed(p: Project, a: Site, i: nat): Option<(Key, Site)> {
    if i < |a.body| && a.body[i].Mixin? && Target(p, a.scope.home, a.body[i].ref).Some? then
      var k := Target(p, a.scope.home, a.body[i].ref).value;
      Some((k, Site(p.types[k].body, MixinScope(p, k, a.body[i].ref, a.scope))))
    else None
  }

  /** The type a way through mixins comes to, and its body there. */
  function EmbedAt(p: Project, a: Site, way: Way): Option<(Key, Site)>
    requires way != []
    decreases |way|
  {
    var next := Embed(p, a, way[0]);
    if |way| == 1 || next.None? then next else EmbedAt(p, next.value.1, way[1..])
  }

  function BodyAt(p: Project, a: Site, way: Way): Option<Site> {
    if way == [] then Some(a)
    else if EmbedAt(p, a, way).Some? then Some(EmbedAt(p, a, way).value.1)
    else None
  }

  /** The i-th member of a, when it is a field, as the scope there spells it. */
  function FieldOf(p: Project, a: Site, i: nat): Option<FlatField> {
    if i < |a.body| && a.body[i].Field? then
      Some(FlatField(a.scope.home, a.body[i].name, Spell(p, a.body[i].typ, a.scope)))
    else None
  }

  /** The field a way comes to. */
  function FieldAt(p: Project, a: Site, way: Way): Option<FlatField>
    requires way != []
  {
    var last := |way| - 1;
    var b := BodyAt(p, a, way[..last]);
    if b.None? then None else FieldOf(p, b.value, way[last])
  }

  /** Each type of order is embedded where its way says, ways in order. */
  ghost predicate SitesRight(p: Project, a: Site, order: seq<Key>, sites: seq<Way>) {
    && |sites| == |order| && InOrder(sites)
    && forall x :: 0 <= x < |sites| ==> SiteRight(p, a, order[x], sites[x])
  }

  predicate SiteRight(p: Project, a: Site, k: Key, way: Way) {
    way != [] && EmbedAt(p, a, way).Some? && EmbedAt(p, a, way).value.0 == k
  }

  /** Each field stands where its way says, ways in order. */
  ghost predicate FieldsRight(p: Project, a: Site, fields: seq<FlatField>, ways: seq<Way>) {
    && |ways| == |fields| && InOrder(ways)
    && forall y :: 0 <= y < |ways| ==> FieldRight(p, a, fields[y], ways[y])
  }

  predicate FieldRight(p: Project, a: Site, ff: FlatField, way: Way) {
    way != [] && FieldAt(p, a, way) == Some(ff)
  }

  /** way is that of the body itself or of one expanded. */
  predicate Expanded(sites: seq<Way>, way: Way) { way == [] || way in sites }

  /** Every field of every body expanded has its way, and every type embedded
      there was expanded there or at a way before it, unless it was seen. */
  ghost predicate NoneMissing(p: Project, a: Site, seen: set<Key>, order: seq<Key>, sites: seq<Way>, ways: seq<Way>) {
    |order| == |sites| && forall way, i: nat :: Expanded(sites, way) && BodyAt(p, a, way).Some? ==>
      MemberDone(p, BodyAt(p, a, way).value, way, i, seen, order, sites, ways)
  }

  ghost predicate MemberDone(p: Project, b: Site, way: Way, i: nat, seen: set<Key>, order: seq<Key>, sites: seq<Way>,
                             ways: seq<Way>)
    requires |order| == |sites|
  {
    && (FieldOf(p, b, i).Some? ==> way + [i] in ways)
    && (Embed(p, b, i).Some? ==> Embed(p, b, i).value.0 in seen || Won(order, sites, Embed(p, b, i).value.0, way + [i]))
  }

  /** k was expanded at way or before. */
  ghost predicate Won(order: seq<Key>, sites: seq<Way>, k: Key, way: Way)
    requires |order| == |sites|
  {
    exists x :: 0 <= x < |order| && order[x] == k && (sites[x] == way || Before(sites[x], way))
  }

  ghost predicate Traced(p: Project, a: Site, seen: set<Key>, r: Flat, sites: seq<Way>, ways: seq<Way>) {
    && SitesRight(p, a, r.order, sites) && FieldsRight(p, a, r.fields, ways)
    && NoneMissing(p, a, seen, r.order, sites, ways)
    && forall y :: 0 <= y < |ways| ==> Expanded(sites, ways[y][..|ways[y]| - 1])
  }

  // ---- Ways of a front and of a body within ----

  lemma FrontWay(p: Project, body: seq<Member>, c: Scope, n: nat, way: Way)
    requires n <= |body| && way != [] && way[0] < n
    ensures EmbedAt(p, Site(body[..n], c), way) == EmbedAt(p, Site(body, c), way)
    ensures FieldAt(p, Site(body[..n], c), way) == FieldAt(p, Site(body, c), way)
  {
    var front, all, last := Site(body[..n], c), Site(body, c), |way| - 1;
    assert forall i :: 0 <= i < n ==> body[..n][i] == body[i];
    FrontEmbed(p, body, c, n, way);
    if last > 0 { FrontEmbed(p, body, c, n, way[..last]); }
  }

  lemma FrontEmbed(p: Project, body: seq<Member>, c: Scope, n: nat, way: Way)
    requires n <= |body| && way != [] && way[0] < n
    ensures EmbedAt(p, Site(body[..n], c), way) == EmbedAt(p, Site(body, c), way)
  {
    assert body[..n][way[0]] == body[way[0]];
  }

  lemma UnderWay(p: Project, a: Site, n: nat, way: Way)
    requires Embed(p, a, n).Some?
    ensures var mid := Embed(p, a, n).value.1;
      && BodyAt(p, a, [n] + way) == BodyAt(p, mid, way)
      && (way != [] ==> EmbedAt(p, a, [n] + way) == EmbedAt(p, mid, way))
      && (way != [] ==> FieldAt(p, a, [n] + way) == FieldAt(p, mid, way))
  {
    UnderEmbed(p, a, n, way);
    if way != [] {
      var last := |way| - 1;
      UnderEmbed(p, a, n, way[..last]);
      assert ([n] + way)[..last + 1] == [n] + way[..last];
    }
  }

  lemma UnderEmbed(p: Project, a: Site, n: nat, way: Way)
    requires Embed(p, a, n).Some?
    ensures var mid := Embed(p, a, n).value.1;
      && BodyAt(p, a, [n] + way) == BodyAt(p, mid, way)
      && (way != [] ==> EmbedAt(p, a, [n] + way) == EmbedAt(p, mid, way))
  {
    assert ([n] + way)[1..] == way;
  }

  /** The first step of a way that comes to something. */
  lemma FirstStep(p: Project, a: Site, way: Way)
    requires way != [] && (EmbedAt(p, a, way).Some? || FieldAt(p, a, way).Some?)
    ensures way[0] < |a.body|
  {
  }

  // ---- Ways in order ----

  lemma BeforeUnder(n: nat, way: Way, that: Way)
    ensures Before([n] + way, [n] + that) == Before(way, that)
    ensures way != [] ==> Before([n], [n] + way)
  {
    assert ([n] + way)[1..] == way && ([n] + that)[1..] == that && [n][1..] == [];
  }

  ghost predicate StartBelow(ways: seq<Way>, n: nat) {
    forall i :: 0 <= i < |ways| ==> ways[i] != [] && ways[i][0] < n
  }

  ghost predicate StartAt(ways: seq<Way>, n: nat) {
    forall i :: 0 <= i < |ways| ==> ways[i] != [] && ways[i][0] == n
  }

  lemma OrderJoin(xs: seq<Way>, ys: seq<Way>, n: nat)
    requires InOrder(xs) && InOrder(ys) && StartBelow(xs, n) && StartAt(ys, n)
    ensures InOrder(xs + ys)
  {
    var all := xs + ys;
    forall i, j | 0 <= i < j < |all| ensures Before(all[i], all[j]) {
      if i >= |xs| { assert Before(ys[i - |xs|], ys[j - |xs|]); }
    }
  }

  lemma OrderUnder(n: nat, ways: seq<Way>)
    requires InOrder(ways)
    ensures InOrder(Under(n, ways)) && StartAt(Under(n, ways), n)
  {
    var under := Under(n, ways);
    forall i, j | 0 <= i < j < |under| ensures Before(under[i], under[j]) { BeforeUnder(n, ways[i], ways[j]); }
  }

  lemma OrderBelow(n: nat, ways: seq<Way>)
    requires InOrder(ways) && forall i :: 0 <= i < |ways| ==> ways[i] != []
    ensures InOrder([[n]] + Under(n, ways)) && StartAt([[n]] + Under(n, ways), n)
  {
    var all := [[n]] + Under(n, ways);
    OrderUnder(n, ways);
    forall i, j | 0 <= i < j < |all| ensures Before(all[i], all[j]) {
      BeforeUnder(n, ways[j - 1], ways[j - 1]);
      if i > 0 { assert Before(Under(n, ways)[i - 1], Under(n, ways)[j - 1]); }
    }
  }

  // ---- One member more ----

  lemma SitesBelow(p: Project, a: Site, order: seq<Key>, sites: seq<Way>)
    requires SitesRight(p, a, order, sites)
    ensures StartBelow(sites, |a.body|)
  {
    forall x | 0 <= x < |sites| ensures sites[x] != [] && sites[x][0] < |a.body| {
      assert SiteRight(p, a, order[x], sites[x]);
      FirstStep(p, a, sites[x]);
    }
  }

  lemma FieldsBelow(p: Project, a: Site, fields: seq<FlatField>, ways: seq<Way>)
    requires FieldsRight(p, a, fields, ways)
    ensures StartBelow(ways, |a.body|)
  {
    forall y | 0 <= y < |ways| ensures ways[y] != [] && ways[y][0] < |a.body| {
      assert FieldRight(p, a, fields[y], ways[y]);
      FirstStep(p, a, ways[y]);
    }
  }

  lemma FrontSites(p: Project, body: seq<Member>, c: Scope, n: nat, order: seq<Key>, sites: seq<Way>)
    requires n <= |body| && SitesRight(p, Site(body[..n], c), order, sites)
    ensures SitesRight(p, Site(body, c), order, sites)
  {
    SitesBelow(p, Site(body[..n], c), order, sites);
    forall x | 0 <= x < |sites| ensures SiteRight(p, Site(body, c), order[x], sites[x]) {
      assert SiteRight(p, Site(body[..n], c), order[x], sites[x]);
      FrontWay(p, body, c, n, sites[x]);
    }
  }

  lemma FrontFields(p: Project, body: seq<Member>, c: Scope, n: nat, fields: seq<FlatField>, ways: seq<Way>)
    requires n <= |body| && FieldsRight(p, Site(body[..n], c), fields, ways)
    ensures FieldsRight(p, Site(body, c), fields, ways)
  {
    FieldsBelow(p, Site(body[..n], c), fields, ways);
    forall y | 0 <= y < |ways| ensures FieldRight(p, Site(body, c), fields[y], ways[y]) {
      assert FieldRight(p, Site(body[..n], c), fields[y], ways[y]);
      FrontWay(p, body, c, n, ways[y]);
    }
  }

  lemma DoneMore(p: Project, b: Site, way: Way, i: nat, seen: set<Key>, order: seq<Key>, sites: seq<Way>,
                 ways: seq<Way>, order': seq<Key>, sites': seq<Way>, ways': seq<Way>)
    requires |order| == |sites| && |order'| == |sites'| && MemberDone(p, b, way, i, seen, order, sites, ways)
    ensures MemberDone(p, b, way, i, seen, order + order', sites + sites', ways + ways')
  {
    if Embed(p, b, i).Some? && Embed(p, b, i).value.0 !in seen {
      var x :| 0 <= x < |order| && order[x] == Embed(p, b, i).value.0 &&
               (sites[x] == way + [i] || Before(sites[x], way + [i]));
      assert (order + order')[x] == order[x] && (sites + sites')[x] == sites[x];
    }
  }

  /** A body expanded by the front misses nothing, but for the new member. */
  lemma FrontDone(p: Project, body: seq<Member>, c: Scope, n: nat, seen: set<Key>, order: seq<Key>, sites: seq<Way>,
                  ways: seq<Way>, way: Way, i: nat)
    requires n <= |body| && SitesRight(p, Site(body[..n], c), order, sites)
    requires NoneMissing(p, Site(body[..n], c), seen, order, sites, ways)
    requires Expanded(sites, way) && (way == [] ==> i < n) && BodyAt(p, Site(body, c), way).Some?
    ensures MemberDone(p, BodyAt(p, Site(body, c), way).value, way, i, seen, order, sites, ways)
  {
    var front := Site(body[..n], c);
    if way == [] {
      assert BodyAt(p, front, []) == Some(front) && body[..n][i] == body[i];
      assert MemberDone(p, front, way, i, seen, order, sites, ways);
    } else {
      SitesBelow(p, front, order, sites);
      FrontWay(p, body, c, n, way);
      assert MemberDone(p, BodyAt(p, front, way).value, way, i, seen, order, sites, ways);
    }
  }

  /** The new member is a field. */
  lemma TraceField(p: Project, body: seq<Member>, c: Scope, seen: set<Key>, r: Flat, sites: seq<Way>, ways: seq<Way>)
    requires body != [] && body[|body| - 1].Field? && Traced(p, Site(body[..|body| - 1], c), seen, r, sites, ways)
    ensures var ff := FieldOf(p, Site(body, c), |body| - 1).value;
      Traced(p, Site(body, c), seen, r.(fields := r.fields + [ff]), sites, ways + [[|body| - 1]])
  {
    var n, a := |body| - 1, Site(body, c);
    var ff, more := FieldOf(p, a, n).value, ways + [[n]];
    FrontSites(p, body, c, n, r.order, sites);
    FrontFields(p, body, c, n, r.fields, ways);
    FieldsBelow(p, Site(body[..n], c), r.fields, ways);
    OrderJoin(ways, [[n]], n);
    assert [n][..0] == [] && FieldAt(p, a, [n]) == Some(ff);
    assert FieldsRight(p, a, r.fields + [ff], more);
    forall way, i: nat | Expanded(sites, way) && BodyAt(p, a, way).Some?
      ensures MemberDone(p, BodyAt(p, a, way).value, way, i, seen, r.order, sites, more)
    {
      FieldDone(p, body, c, seen, r, sites, ways, way, i);
    }
  }

  lemma FieldDone(p: Project, body: seq<Member>, c: Scope, seen: set<Key>, r: Flat, sites: seq<Way>, ways: seq<Way>,
                  way: Way, i: nat)
    requires body != [] && body[|body| - 1].Field? && Traced(p, Site(body[..|body| - 1], c), seen, r, sites, ways)
    requires Expanded(sites, way) && BodyAt(p, Site(body, c), way).Some?
    ensures MemberDone(p, BodyAt(p, Site(body, c), way).value, way, i, seen, r.order, sites, ways + [[|body| - 1]])
  {
    var n := |body| - 1;
    if way == [] && i >= n {
      assert [] + [n] == [n] && (ways + [[n]])[|ways|] == [n];
    } else {
      FrontDone(p, body, c, n, seen, r.order, sites, ways, way, i);
      DoneMore(p, BodyAt(p, Site(body, c), way).value, way, i, seen, r.order, sites, ways, [], [], [[n]]);
      assert r.order + [] == r.order && sites + [] == sites;
    }
  }

  /** The new member is a mixin that names no type or one expanded before. */
  lemma TraceSkip(p: Project, body: seq<Member>, c: Scope, seen: set<Key>, r: Flat, sites: seq<Way>, ways: seq<Way>,
                  incomplete: bool)
    requires body != [] && body[|body| - 1].Mixin? && Traced(p, Site(body[..|body| - 1], c), seen, r, sites, ways)
    requires var next := Embed(p, Site(body, c), |body| - 1); next.Some? ==> next.value.0 in seen + Keys(r.order)
    ensures Traced(p, Site(body, c), seen, r.(incomplete := incomplete), sites, ways)
  {
    var n, a := |body| - 1, Site(body, c);
    FrontSites(p, body, c, n, r.order, sites);
    FrontFields(p, body, c, n, r.fields, ways);
    forall way, i: nat | Expanded(sites, way) && BodyAt(p, a, way).Some?
      ensures MemberDone(p, BodyAt(p, a, way).value, way, i, seen, r.order, sites, ways)
    {
      if way == [] && i >= n {
        if i == n && Embed(p, a, n).Some? && Embed(p, a, n).value.0 !in seen {
          WonEarlier(p, Site(body[..n], c), r.order, sites, Embed(p, a, n).value.0, [n]);
        }
        assert [] + [i] == [i];
      } else {
        FrontDone(p, body, c, n, seen, r.order, sites, ways, way, i);
      }
    }
  }

  /** A type the front expanded was expanded before anything of a later
      member. */
  lemma WonEarlier(p: Project, a: Site, order: seq<Key>, sites: seq<Way>, k: Key, way: Way)
    requires SitesRight(p, a, order, sites) && k in order && way != [] && way[0] >= |a.body|
    ensures Won(order, sites, k, way)
  {
    SitesBelow(p, a, order, sites);
    var x :| 0 <= x < |order| && order[x] == k;
    assert Before(sites[x], way);
  }

  // ---- A mixin that is expanded ----

  lemma UnderSites(p: Project, a: Site, n: nat, order: seq<Key>, sites: seq<Way>)
    requires Embed(p, a, n).Some? && SitesRight(p, Embed(p, a, n).value.1, order, sites)
    ensures SitesRight(p, a, [Embed(p, a, n).value.0] + order, [[n]] + Under(n, sites))
  {
    var k, mid := Embed(p, a, n).value.0, Embed(p, a, n).value.1;
    var order', sites' := [k] + order, [[n]] + Under(n, sites);
    forall x | 0 <= x < |sites| ensures sites[x] != [] { assert SiteRight(p, mid, order[x], sites[x]); }
    OrderBelow(n, sites);
    forall x | 0 <= x < |sites'| ensures SiteRight(p, a, order'[x], sites'[x]) {
      if x > 0 {
        assert SiteRight(p, mid, order[x - 1], sites[x - 1]);
        UnderSite(p, a, n, order[x - 1], sites[x - 1]);
      }
    }
  }

  lemma UnderSite(p: Project, a: Site, n: nat, k: Key, way: Way)
    requires Embed(p, a, n).Some? && SiteRight(p, Embed(p, a, n).value.1, k, way)
    ensures SiteRight(p, a, k, [n] + way)
  {
    UnderWay(p, a, n, way);
  }

  lemma UnderFields(p: Project, a: Site, n: nat, fields: seq<FlatField>, ways: seq<Way>)
    requires Embed(p, a, n).Some? && FieldsRight(p, Embed(p, a, n).value.1, fields, ways)
    ensures FieldsRight(p, a, fields, Under(n, ways)) && StartAt(Under(n, ways), n)
  {
    OrderUnder(n, ways);
    forall y | 0 <= y < |ways| ensures FieldRight(p, a, fields[y], Under(n, ways)[y]) {
      assert FieldRight(p, Embed(p, a, n).value.1, fields[y], ways[y]);
      UnderWay(p, a, n, ways[y]);
    }
  }

  lemma JoinSites(p: Project, a: Site, n: nat, order: seq<Key>, sites: seq<Way>, order': seq<Key>, sites': seq<Way>)
    requires SitesRight(p, a, order, sites) && StartBelow(sites, n)
    requires SitesRight(p, a, order', sites') && StartAt(sites', n)
    ensures SitesRight(p, a, order + order', sites + sites')
  {
    OrderJoin(sites, sites', n);
    forall x | 0 <= x < |sites + sites'| ensures SiteRight(p, a, (order + order')[x], (sites + sites')[x]) {
      if x < |sites| { assert SiteRight(p, a, order[x], sites[x]); }
      else { assert SiteRight(p, a, order'[x - |sites|], sites'[x - |sites|]); }
    }
  }

  lemma JoinFields(p: Project, a: Site, n: nat, fields: seq<FlatField>, ways: seq<Way>, fields': seq<FlatField>,
                   ways': seq<Way>)
    requires FieldsRight(p, a, fields, ways) && StartBelow(ways, n)
    requires FieldsRight(p, a, fields', ways') && StartAt(ways', n)
    ensures FieldsRight(p, a, fields + fields', ways + ways')
  {
    OrderJoin(ways, ways', n);
    forall y | 0 <= y < |ways + ways'| ensures FieldRight(p, a, (fields + fields')[y], (ways + ways')[y]) {
      JoinedField(p, a, fields, ways, fields', ways', y);
    }
  }

  lemma JoinedField(p: Project, a: Site, fields: seq<FlatField>, ways: seq<Way>, fields': seq<FlatField>,
                    ways': seq<Way>, y: nat)
    requires |fields| == |ways| && |fields'| == |ways'| && y < |ways + ways'|
    requires y < |ways| ==> FieldRight(p, a, fields[y], ways[y])
    requires y >= |ways| ==> FieldRight(p, a, fields'[y - |ways|], ways'[y - |ways|])
    ensures FieldRight(p, a, (fields + fields')[y], (ways + ways')[y])
  {
  }

  /** What the walk of a mixin's type won, the walk of its host won, under the
      mixin. */
  lemma WonUnder(n: nat, k: Key, order: seq<Key>, sites: seq<Way>, m: Key, way: Way)
    requires |order| == |sites| && (m == k || Won(order, sites, m, way)) && way != []
    ensures Won([k] + order, [[n]] + Under(n, sites), m, [n] + way)
  {
    if m == k {
      BeforeUnder(n, way, way);
      assert ([k] + order)[0] == k;
    } else {
      var x :| 0 <= x < |order| && order[x] == m && (sites[x] == way || Before(sites[x], way));
      BeforeUnder(n, sites[x], way);
      assert ([k] + order)[x + 1] == m && ([[n]] + Under(n, sites))[x + 1] == [n] + sites[x];
    }
  }

  lemma WonMore(order: seq<Key>, sites: seq<Way>, order': seq<Key>, sites': seq<Way>, m: Key, way: Way)
    requires |order| == |sites| && |order'| == |sites'|
    ensures Won(order, sites, m, way) ==> Won(order + order', sites + sites', m, way)
    ensures Won(order', sites', m, way) ==> Won(order + order', sites + sites', m, way)
  {
    if Won(order, sites, m, way) {
      var x :| 0 <= x < |order| && order[x] == m && (sites[x] == way || Before(sites[x], way));
      assert (order + order')[x] == m && (sites + sites')[x] == sites[x];
    }
    if Won(order', sites', m, way) {
      var x :| 0 <= x < |order'| && order'[x] == m && (sites'[x] == way || Before(sites'[x], way));
      assert (order + order')[|order| + x] == m && (sites + sites')[|order| + x] == sites'[x];
    }
  }

  /** A member of a body that the walk of the mixin's type expanded. */
  lemma InnerDone(p: Project, front: Site, n: nat, k: Key, seen: set<Key>, r: Flat, sites: seq<Way>, ways: seq<Way>,
                  inner: Flat, sites': seq<Way>, ways': seq<Way>, b: Site, way: Way, i: nat)
    requires SitesRight(p, front, r.order, sites) && |front.body| == n && |inner.order| == |sites'|
    requires MemberDone(p, b, way, i, seen + Keys(r.order) + {k}, inner.order, sites', ways')
    ensures MemberDone(p, b, [n] + way, i, seen, r.order + ([k] + inner.order), sites + ([[n]] + Under(n, sites')),
                       ways + Under(n, ways'))
  {
    var here := [n] + way + [i];
    assert here == [n] + (way + [i]);
    if FieldOf(p, b, i).Some? {
      var y :| 0 <= y < |ways'| && ways'[y] == way + [i];
      assert (ways + Under(n, ways'))[|ways| + y] == here;
    }
    if Embed(p, b, i).Some? && Embed(p, b, i).value.0 !in seen {
      var m := Embed(p, b, i).value.0;
      if m in r.order { WonEarlier(p, front, r.order, sites, m, here); }
      else { WonUnder(n, k, inner.order, sites', m, way + [i]); }
      WonMore(r.order, sites, [k] + inner.order, [[n]] + Under(n, sites'), m, here);
    }
  }

  /** The walk of body comes by its last member, a mixin of a type not yet
      expanded, to the walk of that type. */
  ghost predicate Enters(p: Project, body: seq<Member>, c: Scope, seen: set<Key>, r: Flat, sites: seq<Way>,
                         ways: seq<Way>, inner: Flat, sites': seq<Way>, ways': seq<Way>) {
    && body != [] && Traced(p, Site(body[..|body| - 1], c), seen, r, sites, ways)
    && var next := Embed(p, Site(body, c), |body| - 1);
    && next.Some? && Traced(p, next.value.1, seen + Keys(r.order) + {next.value.0}, inner, sites', ways')
  }

  lemma EnteredDone(p: Project, body: seq<Member>, c: Scope, seen: set<Key>, r: Flat, sites: seq<Way>, ways: seq<Way>,
                    inner: Flat, sites': seq<Way>, ways': seq<Way>, way: Way, i: nat)
    requires Enters(p, body, c, seen, r, sites, ways, inner, sites', ways')
    requires Expanded(sites + ([[|body| - 1]] + Under(|body| - 1, sites')), way)
    requires BodyAt(p, Site(body, c), way).Some?
    ensures var n := |body| - 1; var k := Embed(p, Site(body, c), n).value.0;
      MemberDone(p, BodyAt(p, Site(body, c), way).value, way, i, seen, r.order + ([k] + inner.order),
                 sites + ([[n]] + Under(n, sites')), ways + Under(n, ways'))
  {
    var n, a, front := |body| - 1, Site(body, c), Site(body[..|body| - 1], c);
    var k, mid := Embed(p, a, n).value.0, Embed(p, a, n).value.1;
    if way == [] && i >= n {
      if i == n {
        assert ([k] + inner.order)[0] == k && ([[n]] + Under(n, sites'))[0] == [n];
        assert Won([k] + inner.order, [[n]] + Under(n, sites'), k, [n]);
        WonMore(r.order, sites, [k] + inner.order, [[n]] + Under(n, sites'), k, [n]);
      }
      assert [] + [i] == [i];
    } else if Expanded(sites, way) {
      FrontDone(p, body, c, n, seen, r.order, sites, ways, way, i);
      DoneMore(p, BodyAt(p, a, way).value, way, i, seen, r.order, sites, ways, [k] + inner.order,
               [[n]] + Under(n, sites'), Under(n, ways'));
    } else {
      var rest := UnderExpanded(n, sites', way);
      UnderWay(p, a, n, rest);
      InnerDone(p, front, n, k, seen, r, sites, ways, inner, sites', ways', BodyAt(p, mid, rest).value, rest, i);
    }
  }

  lemma UnderExpanded(n: nat, sites: seq<Way>, way: Way) returns (rest: Way)
    requires way in [[n]] + Under(n, sites)
    ensures way == [n] + rest && Expanded(sites, rest)
  {
    var x :| 0 <= x < |[[n]] + Under(n, sites)| && ([[n]] + Under(n, sites))[x] == way;
    rest := if x == 0 then [] else sites[x - 1];
  }

  lemma FieldsExpanded(n: nat, sites: seq<Way>, ways: seq<Way>, sites': seq<Way>, ways': seq<Way>, y: nat)
    requires y < |ways + Under(n, ways')|
    requires forall z :: 0 <= z < |ways| ==> ways[z] != [] && Expanded(sites, ways[z][..|ways[z]| - 1])
    requires forall z :: 0 <= z < |ways'| ==> ways'[z] != [] && Expanded(sites', ways'[z][..|ways'[z]| - 1])
    ensures var way := (ways + Under(n, ways'))[y];
      way != [] && Expanded(sites + ([[n]] + Under(n, sites')), way[..|way| - 1])
  {
    if y >= |ways| {
      var z := y - |ways|;
      var host := ways'[z][..|ways'[z]| - 1];
      assert ([n] + ways'[z])[..|ways'[z]|] == [n] + host;
      var all := sites + ([[n]] + Under(n, sites'));
      if host == [] {
        assert all[|sites|] == [n] + host;
      } else {
        var x :| 0 <= x < |sites'| && sites'[x] == host;
        assert all[|sites| + 1 + x] == [n] + host;
      }
    }
  }

  lemma TraceMixin(p: Project, body: seq<Member>, c: Scope, seen: set<Key>, r: Flat, sites: seq<Way>, ways: seq<Way>,
                   inner: Flat, sites': seq<Way>, ways': seq<Way>, incomplete: bool)
    requires Enters(p, body, c, seen, r, sites, ways, inner, sites', ways')
    ensures var n := |body| - 1; var k := Embed(p, Site(body, c), n).value.0;
      Traced(p, Site(body, c), seen, Flat(r.fields + inner.fields, r.order + ([k] + inner.order), incomplete),
             sites + ([[n]] + Under(n, sites')), ways + Under(n, ways'))
  {
    var n, a := |body| - 1, Site(body, c);
    var k := Embed(p, a, n).value.0;
    var order, all, found := r.order + ([k] + inner.order), sites + ([[n]] + Under(n, sites')), ways + Under(n, ways');
    FrontSites(p, body, c, n, r.order, sites);
    SitesBelow(p, Site(body[..n], c), r.order, sites);
    UnderSites(p, a, n, inner.order, sites');
    JoinSites(p, a, n, r.order, sites, [k] + inner.order, [[n]] + Under(n, sites'));
    FrontFields(p, body, c, n, r.fields, ways);
    FieldsBelow(p, Site(body[..n], c), r.fields, ways);
    UnderFields(p, a, n, inner.fields, ways');
    JoinFields(p, a, n, r.fields, ways, inner.fields, Under(n, ways'));
    forall way, i: nat | Expanded(all, way) && BodyAt(p, a, way).Some?
      ensures MemberDone(p, BodyAt(p, a, way).value, way, i, seen, order, all, found)
    {
      EnteredDone(p, body, c, seen, r, sites, ways, inner, sites', ways', way, i);
    }
    forall y | 0 <= y < |found| ensures found[y] != [] && Expanded(all, found[y][..|found[y]| - 1]) {
      FieldsExpanded(n, sites, ways, sites', ways', y);
    }
  }

  // ---- The walk ----

  lemma {:induction false} LevelTraced(p: Project, body: seq<Member>, c: Scope, expanded: set<Key>)
    returns (sites: seq<Way>, ways: seq<Way>)
    ensures Traced(p, Site(body, c), expanded, Level(p, body, c, expanded), sites, ways)
    decreases p.types.Keys - expanded, |body|
  {
    if body == [] {
      sites, ways := [], [];
    } else {
      var last := |body| - 1;
      var r := Level(p, body[..last], c, expanded);
      sites, ways := LevelTraced(p, body[..last], c, expanded);
      var next := Embed(p, Site(body, c), last);
      if body[last].Field? {
        TraceField(p, body, c, expanded, r, sites, ways);
        ways := ways + [[last]];
      } else if next.None? || next.value.0 in expanded || next.value.0 in r.order {
        TraceSkip(p, body, c, expanded, r, sites, ways, r.incomplete || next.None?);
      } else {
        var seen := expanded + Keys(r.order) + {next.value.0};
        var sites', ways' := LevelTraced(p, next.value.1.body, next.value.1.scope, seen);
        var inner := Level(p, next.value.1.body, next.value.1.scope, seen);
        TraceMixin(p, body, c, expanded, r, sites, ways, inner, sites', ways', r.incomplete || inner.incomplete);
        assert r.order + ([next.value.0] + inner.order) == r.order + [next.value.0] + inner.order;
        sites, ways := sites + ([[last]] + Under(last, sites')), ways + Under(last, ways');
      }
    }
  }

  /** The fields of a flattening stand in the order of the ways to them, each
      as the scope there spells it; every body is expanded at the first of the
      ways to its type, in that order, and none of its fields is missing. So
      what an earlier member yields stands before what a later one does. */
  lemma FlattenedInOrder(p: Project, body: seq<Member>, c: Scope) returns (sites: seq<Way>, ways: seq<Way>)
    ensures Traced(p, Site(body, c), {}, FlattenFields(p, body, c), sites, ways)
    ensures ByMember(ways)
  {
    sites, ways := LevelTraced(p, body, c, {});
    FieldsByMember(p, Site(body, c), FlattenFields(p, body, c).fields, ways);
  }

  /** Ways through an earlier member come before ways through a later one. */
  ghost predicate ByMember(ways: seq<Way>) {
    && (forall y :: 0 <= y < |ways| ==> ways[y] != [])
    && forall y, z :: 0 <= y < |ways| && 0 <= z < |ways| && ways[y][0] < ways[z][0] ==> y < z
  }

  lemma FieldsByMember(p: Project, a: Site, fields: seq<FlatField>, ways: seq<Way>)
    requires FieldsRight(p, a, fields, ways)
    ensures ByMember(ways)
  {
    forall y | 0 <= y < |ways| ensures ways[y] != [] { assert FieldRight(p, a, fields[y], ways[y]); }
  }
}
