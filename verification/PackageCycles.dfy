/** Shortest reference cycles between packages. */
module PackageCycles {
  import opened Ast

  /** The packages each package references, in name order. */
  type Refs = map<string, seq<string>>

  predicate Edge(refs: Refs, a: string, b: string) { a in refs && b in refs[a] }

  function Next(refs: Refs, a: string): seq<string> { if a in refs then refs[a] else [] }

  predicate IsWalk(refs: Refs, p: seq<string>) {
    forall i :: 0 <= i < |p| - 1 ==> Edge(refs, p[i], p[i + 1])
  }

  predicate IsCycle(refs: Refs, start: string, p: seq<string>) {
    |p| >= 2 && p[0] == start && p[|p| - 1] == start && IsWalk(refs, p)
  }

  ghost predicate OnCycle(refs: Refs, n: string) { exists p :: IsCycle(refs, n, p) }

  /** What a search has found: order lists the packages in the order found,
      depth their distance, parent the package each was found from. */
  ghost predicate Found(refs: Refs, start: string, order: seq<string>, depth: map<string, nat>,
                        parent: map<string, string>) {
    && |order| > 0 && order[0] == start
    && (forall v :: v in depth <==> v in order)
    && (forall v :: v in parent <==> v in depth && v != start)
    && start in depth && depth[start] == 0
    && (forall i, j :: 0 <= i < j < |order| ==> order[i] != order[j] && depth[order[i]] <= depth[order[j]])
    && (forall v {:trigger Child(refs, depth, parent, v)} :: v in parent ==> Child(refs, depth, parent, v))
  }

  /** v lies one step beyond its parent. */
  ghost predicate Child(refs: Refs, depth: map<string, nat>, parent: map<string, string>, v: string)
    requires v in parent
  {
    v in depth && parent[v] in depth && depth[v] == depth[parent[v]] + 1 && Edge(refs, parent[v], v)
  }

  /** The next packages of u are found one step further at most, and none of
      them is start. */
  ghost predicate Searched(next: seq<string>, start: string, depth: map<string, nat>, at: nat) {
    forall w :: w in next ==> w != start && w in depth && depth[w] <= at + 1
  }

  /** The first h found packages are searched, the others lie one step beyond
      at most. */
  ghost predicate Explored(refs: Refs, start: string, order: seq<string>, depth: map<string, nat>, h: nat)
    requires h <= |order|
  {
    && (forall i :: 0 <= i < |order| ==> order[i] in depth)
    && (forall i :: 0 <= i < h ==> Searched(Next(refs, order[i]), start, depth, depth[order[i]]))
    && (h < |order| ==> forall i :: 0 <= i < |order| ==> depth[order[i]] <= depth[order[h]] + 1)
  }

  /** A walk no longer than the depth of the next package to search stays
      among searched packages, so it never comes back to start. */
  lemma {:induction false} WalkStays(refs: Refs, start: string, order: seq<string>, depth: map<string, nat>,
                                     parent: map<string, string>, h: nat, p: seq<string>, k: nat)
    requires Found(refs, start, order, depth, parent) && h <= |order| && Explored(refs, start, order, depth, h)
    requires IsWalk(refs, p) && k < |p| - 1 && p[0] == start
    requires h < |order| ==> k < depth[order[h]]
    ensures p[k + 1] != start && p[k + 1] in depth && depth[p[k + 1]] <= k + 1
  {
    if k > 0 { WalkStays(refs, start, order, depth, parent, h, p, k - 1); }
    assert p[k] in order;
    var i :| 0 <= i < |order| && order[i] == p[k];
    assert Edge(refs, p[k], p[k + 1]);
    assert Searched(Next(refs, order[i]), start, depth, depth[order[i]]);
  }

  lemma NoShortCycle(refs: Refs, start: string, order: seq<string>, depth: map<string, nat>,
                     parent: map<string, string>, h: nat, p: seq<string>)
    requires Found(refs, start, order, depth, parent) && h <= |order| && Explored(refs, start, order, depth, h)
    requires IsCycle(refs, start, p)
    ensures h < |order| && |p| - 2 >= depth[order[h]]
  {
    if h == |order| || |p| - 2 < depth[order[h]] {
      WalkStays(refs, start, order, depth, parent, h, p, |p| - 2);
    }
  }

  function Reversed(s: seq<string>): seq<string> {
    seq(|s|, i requires 0 <= i < |s| => s[|s| - 1 - i])
  }

  /** The way back from a found package to start, read forwards and closed. */
  method Unwind(refs: Refs, start: string, from: string, parent: map<string, string>, ghost order: seq<string>,
                ghost depth: map<string, nat>)
    returns (path: seq<string>)
    requires Found(refs, start, order, depth, parent) && from in depth && Edge(refs, from, start)
    ensures IsCycle(refs, start, path) && |path| == depth[from] + 2
  {
    var back: seq<string> := [];
    var at := from;
    while at != start
      invariant at in depth && depth[at] + |back| == depth[from]
      invariant |back| == 0 ==> at == from
      invariant |back| > 0 ==> back[0] == from && Edge(refs, at, back[|back| - 1])
      invariant forall i :: 0 <= i < |back| - 1 ==> Edge(refs, back[i + 1], back[i])
      decreases depth[at]
    {
      assert Child(refs, depth, parent, at);
      back := back + [at];
      at := parent[at];
    }
    path := [start] + Reversed(back) + [start];
    Closes(refs, start, from, back);
  }

  lemma Closes(refs: Refs, start: string, from: string, back: seq<string>)
    requires Edge(refs, from, start)
    requires |back| == 0 ==> start == from
    requires |back| > 0 ==> back[0] == from && Edge(refs, start, back[|back| - 1])
    requires forall i :: 0 <= i < |back| - 1 ==> Edge(refs, back[i + 1], back[i])
    ensures IsWalk(refs, [start] + Reversed(back) + [start])
  {
    var path := [start] + Reversed(back) + [start];
    forall i | 0 <= i < |path| - 1 ensures Edge(refs, path[i], path[i + 1]) {
      if 0 < i < |back| {
        var j := |back| - 1 - i;
        assert Edge(refs, back[j + 1], back[j]);
      }
    }
  }

  ghost function Deepened(depth: map<string, nat>, from: string, to: string): map<string, nat>
    requires from in depth
  {
    var d: nat := depth[from] + 1;
    depth[to := d]
  }

  /** A package found for the first time, from the one being searched. */
  lemma AddFound(refs: Refs, start: string, order: seq<string>, depth: map<string, nat>,
                 parent: map<string, string>, from: string, to: string)
    requires Found(refs, start, order, depth, parent) && from in depth && Edge(refs, from, to)
    requires to != start && to !in parent
    requires forall v :: v in depth ==> depth[v] <= depth[from] + 1
    ensures Found(refs, start, order + [to], Deepened(depth, from, to), parent[to := from])
  {
    var more := Deepened(depth, from, to);
    assert forall i :: 0 <= i < |order| ==> order[i] in depth && more[order[i]] == depth[order[i]];
    var up := parent[to := from];
    forall v | v in up ensures Child(refs, more, up, v) {
      if v != to { assert Child(refs, depth, parent, v); }
    }
  }

  ghost function Nodes(refs: Refs, start: string): set<string> {
    {start} + set a, n | a in refs && n in refs[a] :: n
  }

  lemma {:induction false} FewerThan(order: seq<string>, all: set<string>)
    requires (forall i, j :: 0 <= i < j < |order| ==> order[i] != order[j]) && forall v :: v in order ==> v in all
    ensures |order| <= |all|
  {
    if order != [] { FewerThan(order[1..], all - {order[0]}); }
  }

  lemma FoundBound(refs: Refs, start: string, order: seq<string>, depth: map<string, nat>, parent: map<string, string>)
    requires Found(refs, start, order, depth, parent)
    ensures |order| <= |Nodes(refs, start)|
  {
    forall v | v in order ensures v in Nodes(refs, start) {
      if v != start { assert Child(refs, depth, parent, v); }
    }
    FewerThan(order, Nodes(refs, start));
  }

  /** A search under way at order[h]: the packages before it are searched,
      and next[..j] of its own. */
  ghost predicate Searching(refs: Refs, start: string, order: seq<string>, depth: map<string, nat>, h: nat, j: nat)
    requires h < |order|
  {
    && Explored(refs, start, order, depth, h) && j <= |Next(refs, order[h])|
    && Searched(Next(refs, order[h])[..j], start, depth, depth[order[h]])
  }

  lemma SearchOn(refs: Refs, start: string, order: seq<string>, depth: map<string, nat>,
                 parent: map<string, string>, h: nat, j: nat)
    requires Found(refs, start, order, depth, parent) && h < |order| && Searching(refs, start, order, depth, h, j)
    requires j < |Next(refs, order[h])| && var to := Next(refs, order[h])[j]; to != start && to in parent
    ensures Searching(refs, start, order, depth, h, j + 1)
  {
    var next := Next(refs, order[h]);
    assert forall w :: w in next[..j + 1] ==> w == next[j] || w in next[..j];
    var k :| 0 <= k < |order| && order[k] == next[j];
  }

  /** Nothing found is more than one deeper than the package being searched. */
  lemma OneDeeper(refs: Refs, start: string, order: seq<string>, depth: map<string, nat>,
                  parent: map<string, string>, h: nat)
    requires Found(refs, start, order, depth, parent) && h < |order| && Explored(refs, start, order, depth, h)
    ensures forall v :: v in depth ==> depth[v] <= depth[order[h]] + 1
  {
    forall v | v in depth ensures depth[v] <= depth[order[h]] + 1 { var k :| 0 <= k < |order| && order[k] == v; }
  }

  lemma SearchNew(refs: Refs, start: string, order: seq<string>, depth: map<string, nat>,
                  parent: map<string, string>, h: nat, j: nat)
    requires Found(refs, start, order, depth, parent) && h < |order| && Searching(refs, start, order, depth, h, j)
    requires j < |Next(refs, order[h])| && var to := Next(refs, order[h])[j]; to != start && to !in parent
    ensures var to := Next(refs, order[h])[j];
      Found(refs, start, order + [to], Deepened(depth, order[h], to), parent[to := order[h]])
    ensures var to := Next(refs, order[h])[j];
      Searching(refs, start, order + [to], Deepened(depth, order[h], to), h, j + 1)
  {
    var next := Next(refs, order[h]);
    var to := next[j];
    var more := Deepened(depth, order[h], to);
    OneDeeper(refs, start, order, depth, parent, h);
    AddFound(refs, start, order, depth, parent, order[h], to);
    SearchedMore(next, j, start, depth, more, depth[order[h]]);
    Kept(refs, start, order + [to], more, depth, h);
  }

  lemma SearchedMore(next: seq<string>, j: nat, start: string, depth: map<string, nat>, more: map<string, nat>, at: nat)
    requires j < |next| && next[j] != start && next[j] in more && more[next[j]] <= at + 1
    requires Searched(next[..j], start, depth, at)
    requires forall v :: v in depth && v != next[j] ==> v in more && more[v] == depth[v]
    ensures Searched(next[..j + 1], start, more, at)
  {
    var seen := next[..j + 1];
    forall w | w in seen ensures w != start && w in more && more[w] <= at + 1 {
      if w != next[j] { assert w in next[..j]; }
    }
  }

  lemma SearchDone(refs: Refs, start: string, order: seq<string>, depth: map<string, nat>,
                   parent: map<string, string>, h: nat)
    requires Found(refs, start, order, depth, parent) && h < |order|
    requires Searching(refs, start, order, depth, h, |Next(refs, order[h])|)
    ensures Explored(refs, start, order, depth, h + 1)
  {
    var next := Next(refs, order[h]);
    assert next[..|next|] == next;
    if h + 1 < |order| { assert depth[order[h]] <= depth[order[h + 1]]; }
  }

  lemma TailGrows(order: seq<string>, to: string, k: nat)
    requires k <= |order|
    ensures (order + [to])[k..] == order[k..] + [to]
  {
  }

  /** Looks at the packages from references: closes a shortest cycle, or
      queues those not found before. */
  method Search(refs: Refs, start: string, from: string, parent0: map<string, string>, queue0: seq<string>,
                ghost order0: seq<string>, ghost depth0: map<string, nat>, ghost h: nat)
    returns (r: Option<seq<string>>, parent: map<string, string>, queue: seq<string>, ghost order: seq<string>,
        ghost depth: map<string, nat>)
    requires Found(refs, start, order0, depth0, parent0)
    requires h < |order0| && order0[h] == from && queue0 == order0[h + 1..] && Explored(refs, start, order0, depth0, h)
    ensures r.Some? ==> IsCycle(refs, start, r.value)
    ensures r.Some? ==> forall p :: IsCycle(refs, start, p) ==> |p| >= |r.value|
    ensures r.None? ==> Found(refs, start, order, depth, parent)
    ensures r.None? ==> h < |order| && queue == order[h + 1..] && Explored(refs, start, order, depth, h + 1)
  {
    parent, queue, order, depth := parent0, queue0, order0, depth0;
    var next := Next(refs, from);
    for j := 0 to |next|
      invariant Found(refs, start, order, depth, parent)
      invariant h < |order| && order[h] == from && queue == order[h + 1..]
      invariant Searching(refs, start, order, depth, h, j)
    {
      var to := next[j];
      if to == start {
        var path := Unwind(refs, start, from, parent, order, depth);
        Shortest(refs, start, order, depth, parent, h, path);
        r := Some(path);
        return;
      }
      if to in parent {
        SearchOn(refs, start, order, depth, parent, h, j);
        continue;
      }
      SearchNew(refs, start, order, depth, parent, h, j);
      TailGrows(order, to, h + 1);
      parent := parent[to := from];
      order, depth := order + [to], Deepened(depth, from, to);
      queue := queue + [to];
    }
    SearchDone(refs, start, order, depth, parent, h);
    r := None;
  }

  /** A shortest cycle through start, or none. */
  method ShortestCycle(refs: Refs, start: string) returns (r: Option<seq<string>>)
    ensures r.Some? ==> IsCycle(refs, start, r.value)
    ensures r.Some? ==> forall p :: IsCycle(refs, start, p) ==> |p| >= |r.value|
    ensures r.None? ==> !OnCycle(refs, start)
  {
    var parent: map<string, string> := map[];
    var queue := [start];
    ghost var order, h := [start], 0;
    ghost var depth: map<string, nat> := map[start := 0];
    r := None;
    while |queue| > 0
      invariant Found(refs, start, order, depth, parent)
      invariant 0 <= h <= |order| && queue == order[h..]
      invariant Explored(refs, start, order, depth, h)
      decreases |Nodes(refs, start)| - h
    {
      FoundBound(refs, start, order, depth, parent);
      var from := queue[0];
      r, parent, queue, order, depth := Search(refs, start, from, parent, queue[1..], order, depth, h);
      if r.Some? { return; }
      h := h + 1;
    }
    forall p ensures !IsCycle(refs, start, p) {
      if IsCycle(refs, start, p) { NoShortCycle(refs, start, order, depth, parent, h, p); }
    }
    return None;
  }

  /** What was searched stays searched as more is found. */
  lemma Kept(refs: Refs, start: string, order: seq<string>, depth: map<string, nat>, searched: map<string, nat>, h: nat)
    requires h < |order| && forall i :: 0 <= i < |order| ==> order[i] in depth
    requires searched.Keys <= depth.Keys && forall v :: v in searched ==> depth[v] == searched[v]
    requires forall v :: v in depth ==> depth[v] <= depth[order[h]] + 1
    requires forall i :: 0 <= i < h ==>
        order[i] in searched && Searched(Next(refs, order[i]), start, searched, searched[order[i]])
    ensures Explored(refs, start, order, depth, h)
  {
    forall i | 0 <= i < h ensures Searched(Next(refs, order[i]), start, depth, depth[order[i]]) {
      assert Searched(Next(refs, order[i]), start, searched, searched[order[i]]);
    }
  }

  /** A cycle closed while searching order[h] is a shortest one. */
  lemma Shortest(refs: Refs, start: string, order: seq<string>, depth: map<string, nat>,
                 parent: map<string, string>, h: nat, path: seq<string>)
    requires Found(refs, start, order, depth, parent) && h < |order| && Explored(refs, start, order, depth, h)
    requires |path| == depth[order[h]] + 2
    ensures forall p :: IsCycle(refs, start, p) ==> |p| >= |path|
  {
    forall p | IsCycle(refs, start, p) ensures |p| >= |path| {
      NoShortCycle(refs, start, order, depth, parent, h, p);
    }
  }

  /** A cycle can be entered at any of its packages. */
  lemma Rotate(refs: Refs, start: string, p: seq<string>, i: nat)
    requires IsCycle(refs, start, p) && i < |p|
    ensures OnCycle(refs, p[i])
  {
    if 0 < i < |p| - 1 {
      var q := p[i..] + p[1..i + 1];
      forall k | 0 <= k < |q| - 1 ensures Edge(refs, q[k], q[k + 1]) {
        var m := if k < |p| - i then i + k else k - (|p| - i) + 1;
        if k == |p| - i - 1 { assert Edge(refs, p[0], p[0 + 1]); } else { assert Edge(refs, p[m], p[m + 1]); }
      }
      assert IsCycle(refs, p[i], q);
    } else {
      assert p[i] == start;
    }
  }

  /** p is a shortest cycle through its first package. */
  ghost predicate IsShortest(refs: Refs, p: seq<string>) {
    |p| >= 2 && IsCycle(refs, p[0], p) && forall q :: IsCycle(refs, p[0], q) ==> |q| >= |p|
  }

  /** The reports are shortest cycles, none through a package of an earlier
      one's. */
  ghost predicate Reports(refs: Refs, cycles: seq<seq<string>>) {
    && (forall i :: 0 <= i < |cycles| ==> IsShortest(refs, cycles[i]))
    && (forall i, j :: 0 <= i < j < |cycles| ==> |cycles[j]| > 0 && cycles[j][0] !in cycles[i])
  }

  ghost predicate On(cycles: seq<seq<string>>, n: string) { exists i :: 0 <= i < |cycles| && n in cycles[i] }

  lemma OnMore(cycles: seq<seq<string>>, p: seq<string>, n: string)
    ensures On(cycles + [p], n) <==> On(cycles, n) || n in p
  {
    var more := cycles + [p];
    if On(cycles, n) {
      var i :| 0 <= i < |cycles| && n in cycles[i];
      assert n in more[i];
    }
    if n in p { assert n in more[|cycles|]; }
  }

  lemma ReportMore(refs: Refs, cycles: seq<seq<string>>, p: seq<string>)
    requires Reports(refs, cycles) && IsShortest(refs, p) && !On(cycles, p[0])
    ensures Reports(refs, cycles + [p])
  {
  }

  /** The i-th report starts at names[at[i]], in order, and every earlier name on
      a cycle lies on an earlier report. */
  ghost predicate InNameOrder(refs: Refs, names: seq<string>, cycles: seq<seq<string>>, at: seq<nat>) {
    && |at| == |cycles| && (forall i, j :: 0 <= i < j < |at| ==> at[i] < at[j])
    && (forall i :: 0 <= i < |at| ==> at[i] < |names| && cycles[i] != [] && cycles[i][0] == names[at[i]])
    && forall i, m :: 0 <= i < |at| && 0 <= m < at[i] && OnCycle(refs, names[m]) ==> On(cycles[..i], names[m])
  }

  lemma NextInOrder(refs: Refs, names: seq<string>, cycles: seq<seq<string>>, at: seq<nat>, k: nat, p: seq<string>)
    requires InNameOrder(refs, names, cycles, at) && k < |names| && p != [] && p[0] == names[k]
    requires forall i :: 0 <= i < |at| ==> at[i] < k
    requires forall m :: 0 <= m < k && OnCycle(refs, names[m]) ==> On(cycles, names[m])
    ensures InNameOrder(refs, names, cycles + [p], at + [k])
  {
    var more, at' := cycles + [p], at + [k];
    forall i, m | 0 <= i < |at'| && 0 <= m < at'[i] && OnCycle(refs, names[m]) ensures On(more[..i], names[m]) {
      if i < |at| { assert more[..i] == cycles[..i]; } else { assert more[..i] == cycles; }
    }
  }

  lemma AllOnCycle(refs: Refs, start: string, p: seq<string>)
    requires IsCycle(refs, start, p)
    ensures forall n :: n in p ==> OnCycle(refs, n)
  {
    forall n | n in p ensures OnCycle(refs, n) {
      var i :| 0 <= i < |p| && p[i] == n;
      Rotate(refs, start, p, i);
    }
  }

  /** The reports after the first k names: at says which of them they start
      at. */
  ghost predicate Ordered(refs: Refs, names: seq<string>, k: nat, cycles: seq<seq<string>>, at: seq<nat>) {
    Reports(refs, cycles) && InNameOrder(refs, names, cycles, at) && forall i :: 0 <= i < |at| ==> at[i] < k
  }

  /** reported holds the packages on the reports, and the names on a cycle among
      the first k. */
  ghost predicate Noted(refs: Refs, names: seq<string>, k: nat, cycles: seq<seq<string>>, reported: set<string>)
    requires k <= |names|
  {
    && (forall n :: n in reported <==> On(cycles, n)) && (forall n :: n in reported ==> OnCycle(refs, n))
    && (forall m :: 0 <= m < k && OnCycle(refs, names[m]) ==> names[m] in reported)
  }

  ghost predicate Checked(refs: Refs, names: seq<string>, k: nat, cycles: seq<seq<string>>, reported: set<string>,
                          at: seq<nat>)
    requires k <= |names|
  {
    Ordered(refs, names, k, cycles, at) && Noted(refs, names, k, cycles, reported)
  }

  lemma CheckedOn(refs: Refs, names: seq<string>, k: nat, cycles: seq<seq<string>>, reported: set<string>, at: seq<nat>)
    requires k < |names| && Checked(refs, names, k, cycles, reported, at)
    requires names[k] in reported || !OnCycle(refs, names[k])
    ensures Checked(refs, names, k + 1, cycles, reported, at)
  {
  }

  lemma NotedMore(refs: Refs, names: seq<string>, k: nat, cycles: seq<seq<string>>, reported: set<string>,
                  p: seq<string>)
    requires k < |names| && Noted(refs, names, k, cycles, reported) && IsShortest(refs, p) && p[0] == names[k]
    ensures Noted(refs, names, k + 1, cycles + [p], reported + (set n | n in p))
  {
    AllOnCycle(refs, names[k], p);
    forall n ensures On(cycles + [p], n) <==> n in reported || n in p { OnMore(cycles, p, n); }
  }

  lemma OrderedMore(refs: Refs, names: seq<string>, k: nat, cycles: seq<seq<string>>, at: seq<nat>, p: seq<string>)
    requires k < |names| && Ordered(refs, names, k, cycles, at) && IsShortest(refs, p) && p[0] == names[k]
    requires !On(cycles, names[k]) && forall m :: 0 <= m < k && OnCycle(refs, names[m]) ==> On(cycles, names[m])
    ensures Ordered(refs, names, k + 1, cycles + [p], at + [k])
  {
    ReportMore(refs, cycles, p);
    NextInOrder(refs, names, cycles, at, k, p);
  }

  lemma CheckedMore(refs: Refs, names: seq<string>, k: nat, cycles: seq<seq<string>>, reported: set<string>,
                    at: seq<nat>, p: seq<string>)
    requires k < |names| && Checked(refs, names, k, cycles, reported, at)
    requires names[k] !in reported && IsShortest(refs, p) && p[0] == names[k]
    ensures Checked(refs, names, k + 1, cycles + [p], reported + (set n | n in p), at + [k])
  {
    OrderedMore(refs, names, k, cycles, at, p);
    NotedMore(refs, names, k, cycles, reported, p);
  }

  lemma CheckedAll(refs: Refs, names: seq<string>, cycles: seq<seq<string>>, reported: set<string>, at: seq<nat>)
    requires Checked(refs, names, |names|, cycles, reported, at) && forall a :: a in refs ==> a in names
    ensures forall n :: OnCycle(refs, n) <==> On(cycles, n)
  {
    forall n | OnCycle(refs, n) ensures n in reported {
      var p :| IsCycle(refs, n, p);
      assert Edge(refs, p[0], p[0 + 1]);
    }
  }

  /** The cycles reported, each a shortest one through its first package, in
      name order; the packages on them are exactly those on some cycle. */
  method CheckPackageCycles(refs: Refs, names: seq<string>) returns (cycles: seq<seq<string>>)
    requires forall a :: a in refs ==> a in names
    ensures forall n :: OnCycle(refs, n) <==> On(cycles, n)
    ensures Reports(refs, cycles) && exists at :: InNameOrder(refs, names, cycles, at)
  {
    cycles := [];
    ghost var at: seq<nat> := [];
    var reported: set<string> := {};
    for k := 0 to |names|
      invariant Checked(refs, names, k, cycles, reported, at)
    {
      var start := names[k];
      if start in reported {
        CheckedOn(refs, names, k, cycles, reported, at);
        continue;
      }
      var path := ShortestCycle(refs, start);
      if path.None? {
        CheckedOn(refs, names, k, cycles, reported, at);
        continue;
      }
      CheckedMore(refs, names, k, cycles, reported, at, path.value);
      at := at + [k];
      reported := reported + set n | n in path.value;
      cycles := cycles + [path.value];
    }
    CheckedAll(refs, names, cycles, reported, at);
  }
}
