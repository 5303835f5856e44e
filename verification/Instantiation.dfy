/** The flows of type parameters into the instantiations of generic bodies,
    and the search for the flows that grow on a cycle. */
module Instantiation {
  import opened Ast
  import opened Spelling
  import opened Paths

  /** The index-th type parameter of a generic type. */
  datatype Slot = Slot(host: Key, index: nat)

  /** At a site in the body of host, the argument that fills slot `to` mentions
      host's parameter `param`, of slot `from`; it grows when the argument is
      more than that parameter. */
  datatype Flow = Flow(host: Key, site: NamedRef, param: string, from: Slot, to: Slot, grows: bool)

  predicate BareParam(t: TypeRef, param: string) { t.Named? && t.ref.parts == [param] }

  predicate Grows(arg: TypeRef, param: string) { arg.dims > 0 || arg.optional || !BareParam(arg, param) }

  /** Every named type a body reaches from its fields and mixins. */
  function BodyRefs(body: seq<Member>): seq<NamedRef> {
    if body == [] then [] else BodyRefs(body[..|body| - 1]) + NamedRefs(Root(body[|body| - 1]))
  }

  lemma {:induction false} BodyRefsHold(body: seq<Member>, i: nat, n: NamedRef)
    requires i < |body| && n in NamedRefs(Root(body[i]))
    ensures n in BodyRefs(body)
  {
    if i < |body| - 1 { BodyRefsHold(body[..|body| - 1], i, n); }
  }

  lemma {:induction false} BodyRefsFrom(body: seq<Member>, n: NamedRef) returns (i: nat)
    requires n in BodyRefs(body)
    ensures i < |body| && n in NamedRefs(Root(body[i]))
  {
    var last := |body| - 1;
    if n in NamedRefs(Root(body[last])) { i := last; } else { i := BodyRefsFrom(body[..last], n); }
  }

  ghost predicate IsFlow(p: Project, f: Flow) {
    && f.host in p.types && f.from.host == f.host
    && f.from.index < |p.types[f.host].params| && f.param == p.types[f.host].params[f.from.index]
    && f.site in BodyRefs(p.types[f.host].body)
    && Target(p, f.host.pkg, f.site) == Some(f.to.host)
    && f.to.index < |f.site.args| && f.to.index < |p.types[f.to.host].params|
    && Mentions(f.site.args[f.to.index], f.param)
    && f.grows == Grows(f.site.args[f.to.index], f.param)
  }

  /** The flows of a host's parameters into one argument. */
  method ArgFlows(host: Key, params: seq<string>, site: NamedRef, target: Key, i: nat) returns (flows: seq<Flow>)
    requires i < |site.args|
    ensures forall f :: f in flows <==>
      && f.host == host && f.from.host == host && f.from.index < |params| && f.param == params[f.from.index]
      && f.site == site && f.to == Slot(target, i) && Mentions(site.args[i], f.param)
      && f.grows == Grows(site.args[i], f.param)
  {
    flows := [];
    var arg := site.args[i];
    for j := 0 to |params|
      invariant forall f :: f in flows <==>
        && f.host == host && f.from.host == host && f.from.index < j && f.param == params[f.from.index]
        && f.site == site && f.to == Slot(target, i) && Mentions(arg, f.param) && f.grows == Grows(arg, f.param)
    {
      if Mentions(arg, params[j]) {
        flows := flows + [Flow(host, site, params[j], Slot(host, j), Slot(target, i), Grows(arg, params[j]))];
      }
    }
  }

  /** The flows one site puts its host's parameters on. */
  method SiteFlows(p: Project, host: Key, site: NamedRef) returns (flows: seq<Flow>)
    requires host in p.types && site in BodyRefs(p.types[host].body)
    ensures forall f :: f in flows <==> IsFlow(p, f) && f.host == host && f.site == site
  {
    flows := [];
    var target := Target(p, host.pkg, site);
    if target == None { return; }
    var arity := |p.types[target.value].params|;
    var i := 0;
    while i < |site.args| && i < arity
      invariant 0 <= i <= |site.args| && i <= arity
      invariant forall f :: f in flows <==> IsFlow(p, f) && f.host == host && f.site == site && f.to.index < i
    {
      var more := ArgFlows(host, p.types[host].params, site, target.value, i);
      flows := flows + more;
      i := i + 1;
    }
  }

  /** All flows of the project, host by host. */
  method ParamFlows(p: Project) returns (flows: seq<Flow>)
    ensures forall f :: f in flows <==> IsFlow(p, f)
  {
    flows := [];
    var hosts := p.types.Keys;
    while hosts != {}
      invariant hosts <= p.types.Keys
      invariant forall f :: f in flows <==> IsFlow(p, f) && f.host !in hosts
    {
      var host :| host in hosts;
      var more := HostFlows(p, host);
      flows := flows + more;
      hosts := hosts - {host};
    }
  }

  /** The flows of one type's parameters. */
  method HostFlows(p: Project, host: Key) returns (flows: seq<Flow>)
    requires host in p.types
    ensures forall f :: f in flows <==> IsFlow(p, f) && f.host == host
  {
    flows := [];
    var sites := BodyRefs(p.types[host].body);
    for s := 0 to |sites|
      invariant forall f :: f in flows <==> IsFlow(p, f) && f.host == host && f.site in sites[..s]
    {
      var more := SiteFlows(p, host, sites[s]);
      flows := flows + more;
    }
    assert sites[..|sites|] == sites;
  }

  // ---- Reachability between slots ----

  type Graph = iset<(Slot, Slot)>

  ghost function FlowGraph(p: Project): Graph { iset f | IsFlow(p, f) :: (f.from, f.to) }

  ghost function NextGraph(next: map<Slot, seq<Slot>>): Graph {
    iset a, b | a in next && b in next[a] :: (a, b)
  }

  function Elements(xs: seq<Slot>): set<Slot> { set x | x in xs }

  lemma ElementsConcat(xs: seq<Slot>, ys: seq<Slot>)
    ensures Elements(xs + ys) == Elements(xs) + Elements(ys)
  {
    forall x | x in ys ensures x in xs + ys {
      var i :| 0 <= i < |ys| && ys[i] == x;
      assert (xs + ys)[|xs| + i] == x;
    }
  }

  /** Marks the slots of outs seen and queues those that were not. */
  method Enqueue(outs: seq<Slot>, seen: set<Slot>, queue: seq<Slot>) returns (seen': set<Slot>, queue': seq<Slot>)
    ensures seen' == seen + Elements(outs)
    ensures Elements(queue') == Elements(queue) + (Elements(outs) - seen)
    ensures seen' == seen ==> queue' == queue
  {
    seen', queue' := seen, queue;
    for i := 0 to |outs|
      invariant seen' == seen + Elements(outs[..i])
      invariant Elements(queue') == Elements(queue) + (Elements(outs[..i]) - seen)
      invariant seen' == seen ==> queue' == queue
    {
      assert outs[..i + 1] == outs[..i] + [outs[i]];
      ElementsConcat(outs[..i], [outs[i]]);
      if outs[i] !in seen' {
        ElementsConcat(queue', [outs[i]]);
        seen', queue' := seen' + {outs[i]}, queue' + [outs[i]];
      }
    }
    assert outs[..|outs|] == outs;
  }

  /** A search from a slot: what is seen is reached, and what is seen but no
      longer open leads to what is seen. */
  ghost predicate Searching(g: Graph, from: Slot, seen: set<Slot>, open: set<Slot>) {
    && from in seen && open <= seen && (forall a :: a in seen ==> Leads(g, from, a))
    && (forall a, b :: a in seen - open && (a, b) in g ==> b in seen)
  }

  lemma SearchOn(g: Graph, from: Slot, seen: set<Slot>, open: set<Slot>, at: Slot, outs: set<Slot>)
    requires Searching(g, from, seen, open) && at in open && forall b :: (at, b) in g <==> b in outs
    ensures Searching(g, from, seen + outs, (open - {at}) + (outs - seen))
  {
    forall b | b in outs ensures Leads(g, from, b) { LeadsOn(g, from, at, b); }
  }

  lemma SearchOver(g: Graph, from: Slot, seen: set<Slot>, to: Slot)
    requires Searching(g, from, seen, {})
    ensures Leads(g, from, to) <==> to in seen
  {
    if Leads(g, from, to) { Kept(g, from, to, iset x | x in seen); }
  }

  /** A search may drop what it searched from the open slots, even where it is
      queued twice. */
  lemma SearchLess(g: Graph, from: Slot, seen: set<Slot>, open: set<Slot>, more: set<Slot>)
    requires Searching(g, from, seen, open) && open <= more <= seen
    ensures Searching(g, from, seen, more)
  {
  }

  ghost function Ends(next: map<Slot, seq<Slot>>): set<Slot> { set a, b | a in next && b in next[a] :: b }

  function Outs(next: map<Slot, seq<Slot>>, at: Slot): seq<Slot> { if at in next then next[at] else [] }

  lemma OutsAre(next: map<Slot, seq<Slot>>, at: Slot)
    ensures forall b :: (at, b) in NextGraph(next) <==> b in Elements(Outs(next, at))
    ensures Elements(Outs(next, at)) <= Ends(next)
  {
  }

  /** Breadth-first search along next. */
  method SlotReaches(next: map<Slot, seq<Slot>>, from: Slot, to: Slot) returns (reached: bool)
    ensures reached <==> Leads(NextGraph(next), from, to)
  {
    ghost var g, all := NextGraph(next), Ends(next) + {from};
    var seen, queue := {from}, [from];
    LeadsSelf(g, from);
    assert Elements(queue) == {from};
    while queue != []
      invariant Searching(g, from, seen, Elements(queue)) && seen <= all
      invariant to in seen ==> to in Elements(queue)
      decreases all - seen, |queue|
    {
      var at := queue[0];
      if at == to { return true; }
      assert queue == [at] + queue[1..];
      ElementsConcat([at], queue[1..]);
      OutsAre(next, at);
      SearchOn(g, from, seen, Elements(queue), at, Elements(Outs(next, at)));
      ghost var open := (Elements(queue) - {at}) + (Elements(Outs(next, at)) - seen);
      seen, queue := Enqueue(Outs(next, at), seen, queue[1..]);
      SearchLess(g, from, seen, open, Elements(queue));
    }
    SearchOver(g, from, seen, to);
    return false;
  }

  /** The edges of the flows, by the slot they leave. */
  method NextSlots(flows: seq<Flow>) returns (next: map<Slot, seq<Slot>>)
    ensures NextGraph(next) == iset f | f in flows :: (f.from, f.to)
  {
    next := map[];
    for i := 0 to |flows|
      invariant NextGraph(next) == iset f | f in flows[..i] :: (f.from, f.to)
    {
      var f := flows[i];
      ghost var before := next;
      var outs := if f.from in next then next[f.from] else [];
      next := next[f.from := outs + [f.to]];
      assert NextGraph(next) == NextGraph(before) + iset{(f.from, f.to)};
      assert flows[..i + 1] == flows[..i] + [f];
    }
    assert flows[..|flows|] == flows;
  }

  /** The flows among those given that grow on a cycle of next. */
  method GrowingOnCycle(flows: seq<Flow>, next: map<Slot, seq<Slot>>) returns (endless: seq<Flow>)
    ensures forall f :: f in endless <==> f in flows && f.grows && Leads(NextGraph(next), f.to, f.from)
  {
    endless := [];
    for i := 0 to |flows|
      invariant forall f :: f in endless <==> f in flows[..i] && f.grows && Leads(NextGraph(next), f.to, f.from)
    {
      var reached := false;
      if flows[i].grows { reached := SlotReaches(next, flows[i].to, flows[i].from); }
      if reached { endless := endless + [flows[i]]; }
    }
  }

  /** A flow that grows on a cycle. */
  ghost predicate IsEndless(p: Project, f: Flow) {
    IsFlow(p, f) && f.grows && Leads(FlowGraph(p), f.to, f.from)
  }

  /** The flows that grow on a cycle. */
  method EndlessParamFlows(p: Project) returns (endless: seq<Flow>)
    ensures forall f :: f in endless <==> IsEndless(p, f)
  {
    var flows := ParamFlows(p);
    var next := NextSlots(flows);
    assert NextGraph(next) == FlowGraph(p);
    endless := GrowingOnCycle(flows, next);
  }
}
