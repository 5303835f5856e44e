/** The check that the bounds and divisors of a value leave some quantity. */
module NumericDomain {
  import opened Ast
  import opened Constraints
  import opened Multiples

  /** The quantities a bound meets: whole numbers of a range, or, for a type
      with no number range, all rationals. */
  datatype Scale = Whole(lo: int, hi: int) | Rationals

  const MaxInt64: int := 0x7FFF_FFFF_FFFF_FFFF

  /** Lengths and item counts have a scale of their own, values that of their
      primitive. */
  function ScaleOf(prim: Scale, limits: Limits): Scale {
    if limits == Value then prim else Whole(0, MaxInt64)
  }

  predicate IsWhole(v: real) { v.Floor as real == v }

  /** Where a bound of a site stands on its scale; site 0 is the one checked. */
  datatype Limit = Limit(bound: Bound, site: nat, at: Option<int>, none: bool)

  /** A strict bound at a whole number stands one further in; a value off the
      scale puts no limit. */
  function LimitOn(sc: Scale, b: Bound, site: nat): Limit {
    if sc.Rationals? || !IsWhole(b.value) || !(sc.lo <= b.value.Floor <= sc.hi) then
      Limit(b, site, None, false)
    else
      var v := b.value.Floor;
      var n := if !b.side.strict then v else if b.side.lower then v + 1 else v - 1;
      if (b.side.lower && n > sc.hi) || (!b.side.lower && n < sc.lo) then Limit(b, site, None, true)
      else Limit(b, site, Some(n), false)
  }

  predicate OnScale(sc: Scale, q: real) {
    sc.Whole? ==> IsWhole(q) && sc.lo <= q.Floor <= sc.hi
  }

  /** A limit at n admits the whole numbers from n on or up to n, and a limit
      marked none admits nothing on its scale. */
  lemma LimitMeans(sc: Scale, b: Bound, site: nat, q: int)
    requires sc.Whole? && sc.lo <= q <= sc.hi
    ensures LimitOn(sc, b, site).none ==> !Admits(b, q as real)
    ensures var at := LimitOn(sc, b, site).at;
      at.Some? ==> sc.lo <= at.value <= sc.hi && (Admits(b, q as real) <==> Within(b.side, at.value, q))
    ensures IsWhole(b.value) && sc.lo <= b.value.Floor <= sc.hi ==>
      LimitOn(sc, b, site).none || LimitOn(sc, b, site).at.Some?
  {
    var v := b.value.Floor;
    if IsWhole(b.value) {
      assert q as real > b.value <==> q > v;
      assert q as real < b.value <==> q < v;
    }
  }

  predicate Within(side: Side, at: int, q: int) { if side.lower then q >= at else q <= at }

  /** l is the limit of a bound some site declares. */
  predicate IsLimit(prim: Scale, sites: seq<seq<Decorator>>, l: Limit) {
    && l.site < |sites|
    && Declares(sites[l.site], l.bound)
    && l == LimitOn(ScaleOf(prim, l.bound.limits), l.bound, l.site)
  }

  ghost function LimitsOf(prim: Scale, sites: seq<seq<Decorator>>): iset<Limit> {
    iset l | IsLimit(prim, sites, l)
  }

  ghost function Held(ls: seq<Limit>): iset<Limit> { iset l | l in ls }

  predicate OwnFirst(ls: seq<Limit>) {
    forall i, j :: 0 <= i < j < |ls| && ls[j].site == 0 ==> ls[i].site == 0
  }

  method SiteLimits(prim: Scale, sites: seq<seq<Decorator>>) returns (out: seq<Limit>)
    ensures Held(out) == LimitsOf(prim, sites) && OwnFirst(out)
  {
    out := [];
    for s := 0 to |sites|
      invariant forall l :: l in out <==> l.site < s && IsLimit(prim, sites, l)
      invariant OwnFirst(out)
    {
      var more := LimitsAt(prim, sites, s);
      out := out + more;
    }
  }

  /** The limits of one site. */
  method LimitsAt(prim: Scale, sites: seq<seq<Decorator>>, s: nat) returns (out: seq<Limit>)
    requires s < |sites|
    ensures forall l :: l in out <==> l.site == s && IsLimit(prim, sites, l)
  {
    out := [];
    var bs := DeclaredBounds(sites[s]);
    for k := 0 to |bs|
      invariant forall l :: l in out <==>
          l.site == s && l.bound in bs[..k] && l == LimitOn(ScaleOf(prim, l.bound.limits), l.bound, s)
    {
      out := out + [LimitOn(ScaleOf(prim, bs[k].limits), bs[k], s)];
    }
    assert bs[..|bs|] == bs;
  }

  /** The two leave nothing between them, by their values or on the scale. */
  predicate Contradicts(lo: Limit, hi: Limit) {
    || lo.bound.value > hi.bound.value
    || (lo.bound.value == hi.bound.value && (lo.bound.side.strict || hi.bound.side.strict))
    || (lo.at.Some? && hi.at.Some? && lo.at.value > hi.at.value)
  }

  /** A lower and an upper limit on one quantity, of two decorators, one of
      them the checked site's. */
  predicate Paired(lo: Limit, hi: Limit) {
    && lo.bound.side.lower && !hi.bound.side.lower
    && !(lo.site == hi.site && lo.bound.dec == hi.bound.dec)
    && lo.bound.limits == hi.bound.limits
    && (lo.site == 0 || hi.site == 0)
  }

  ghost predicate PairReported(ls: iset<Limit>) {
    exists lo, hi :: lo in ls && hi in ls && Paired(lo, hi) && Contradicts(lo, hi)
  }

  method ReportContradictingPairs(ls: seq<Limit>) returns (reported: bool)
    ensures reported == PairReported(Held(ls))
  {
    reported := false;
    for i := 0 to |ls|
      invariant reported <==> exists x, y ::
          0 <= x < i && 0 <= y < |ls| && Paired(ls[x], ls[y]) && Contradicts(ls[x], ls[y])
    {
      ghost var before := reported;
      for j := 0 to |ls|
        invariant reported <==> before || exists y :: 0 <= y < j && Paired(ls[i], ls[y]) && Contradicts(ls[i], ls[y])
      {
        if Paired(ls[i], ls[j]) && Contradicts(ls[i], ls[j]) { reported := true; }
      }
    }
    if PairReported(Held(ls)) {
      var lo, hi :| lo in Held(ls) && hi in Held(ls) && Paired(lo, hi) && Contradicts(lo, hi);
      var x :| 0 <= x < |ls| && ls[x] == lo;
      var y :| 0 <= y < |ls| && ls[y] == hi;
    }
    if reported {
      var x, y :| 0 <= x < |ls| && 0 <= y < |ls| && Paired(ls[x], ls[y]) && Contradicts(ls[x], ls[y]);
      assert ls[x] in Held(ls) && ls[y] in Held(ls);
    }
  }

  ghost predicate PastScaleReported(ls: iset<Limit>) {
    exists l :: l in ls && l.site == 0 && l.none
  }

  method ReportLimitsPastScale(ls: seq<Limit>) returns (reported: bool)
    ensures reported == PastScaleReported(Held(ls))
  {
    reported := false;
    for i := 0 to |ls|
      invariant reported <==> exists x :: 0 <= x < i && ls[x].site == 0 && ls[x].none
    {
      if ls[i].site == 0 && ls[i].none { reported := true; }
    }
    assert forall x :: 0 <= x < |ls| ==> ls[x] in Held(ls);
  }

  /** The first multipleOf of the list, when its argument is a whole number
      from 1 up to the greatest value of the scale. */
  function Divisor(prim: Scale, decs: seq<Decorator>): Option<int> {
    if prim.Rationals? || decs == [] then None
    else if decs[0].name != "multipleOf" then Divisor(prim, decs[1..])
    else if |decs[0].args| == 0 || decs[0].args[0].None? then None
    else
      var v := decs[0].args[0].value;
      if IsWhole(v) && 0 < v.Floor <= prim.hi then Some(v.Floor) else None
  }

  lemma {:induction false} DivisorPositive(prim: Scale, decs: seq<Decorator>)
    ensures Divisor(prim, decs).Some? ==> Divisor(prim, decs).value > 0
    decreases |decs|
  {
    if decs != [] { DivisorPositive(prim, decs[1..]); }
  }

  predicate Divided(prim: Scale, sites: seq<seq<Decorator>>, s: nat) {
    s < |sites| && Divisor(prim, sites[s]).Some?
  }

  /** q is a multiple of every site's divisor. */
  ghost predicate MultipleOfAll(prim: Scale, sites: seq<seq<Decorator>>, q: int) {
    forall s: nat :: Divided(prim, sites, s) ==> Divides(Divisor(prim, sites[s]).value, q)
  }

  /** A limit on the value that bears on one side of the window. */
  predicate Bears(l: Limit, lower: bool) {
    l.bound.limits == Value && l.at.Some? && l.bound.side.lower == lower
  }

  predicate Tighter(l: Limit, m: Limit)
    requires l.at.Some? && m.at.Some?
  {
    if l.bound.side.lower then l.at.value > m.at.value else l.at.value < m.at.value
  }

  ghost predicate Tightest(ls: iset<Limit>, l: Limit, lower: bool) {
    l in ls && Bears(l, lower) && forall m :: m in ls && Bears(m, lower) ==> !Tighter(m, l)
  }

  /** q lies on the scale and within every limit on the value. */
  ghost predicate InWindow(prim: Scale, ls: iset<Limit>, q: int)
    requires prim.Whole?
  {
    && prim.lo <= q <= prim.hi
    && forall l :: l in ls && l.bound.limits == Value && l.at.Some? ==> Within(l.bound.side, l.at.value, q)
  }

  /** A divisor or a tightest bound of the checked site takes part. */
  ghost predicate TakesPart(prim: Scale, sites: seq<seq<Decorator>>, ls: iset<Limit>) {
    Divided(prim, sites, 0) || exists l, lower :: Tightest(ls, l, lower) && l.site == 0
  }

  ghost predicate NoMultipleReported(prim: Scale, sites: seq<seq<Decorator>>, ls: iset<Limit>) {
    && prim.Whole?
    && (exists s: nat :: Divided(prim, sites, s))
    && (forall q :: InWindow(prim, ls, q) ==> !MultipleOfAll(prim, sites, q))
    && TakesPart(prim, sites, ls)
  }

  /** o is the position of the first of the tightest among the first n. */
  predicate FirstTightest(ls: seq<Limit>, n: nat, lower: bool, o: Option<nat>)
    requires n <= |ls|
  {
    match o
    case None => forall i :: 0 <= i < n ==> !Bears(ls[i], lower)
    case Some(k) =>
      && k < n && Bears(ls[k], lower)
      && (forall i :: 0 <= i < n && Bears(ls[i], lower) ==> !Tighter(ls[i], ls[k]))
      && (forall i :: 0 <= i < k && Bears(ls[i], lower) ==> Tighter(ls[k], ls[i]))
  }

  method TightestBounds(ls: seq<Limit>) returns (lo: Option<nat>, hi: Option<nat>)
    ensures FirstTightest(ls, |ls|, true, lo) && FirstTightest(ls, |ls|, false, hi)
  {
    lo, hi := None, None;
    for i := 0 to |ls|
      invariant FirstTightest(ls, i, true, lo) && FirstTightest(ls, i, false, hi)
    {
      if Bears(ls[i], true) && (lo.None? || Tighter(ls[i], ls[lo.value])) { lo := Some(i); }
      else if Bears(ls[i], false) && (hi.None? || Tighter(ls[i], ls[hi.value])) { hi := Some(i); }
    }
  }

  /** The checked site owns a tightest bound on a side exactly when the first
      of them is its own. */
  lemma OwnTightest(ls: seq<Limit>, lower: bool, o: Option<nat>)
    requires FirstTightest(ls, |ls|, lower, o) && OwnFirst(ls)
    ensures (exists l :: Tightest(Held(ls), l, lower) && l.site == 0) <==> o.Some? && ls[o.value].site == 0
  {
    if o.Some? {
      assert Tightest(Held(ls), ls[o.value], lower);
      if l :| Tightest(Held(ls), l, lower) && l.site == 0 {
        var k :| 0 <= k < |ls| && ls[k] == l;
        assert k >= o.value;
      }
    } else {
      assert forall l :: Tightest(Held(ls), l, lower) ==> l in ls && Bears(l, lower);
    }
  }

  /** The least common multiple of the divisors, and the sites that have one. */
  method DivisorsOf(prim: Scale, sites: seq<seq<Decorator>>) returns (lcm: nat, parts: seq<nat>)
    ensures lcm > 0
    ensures forall q :: Divides(lcm, q) <==> MultipleOfAll(prim, sites, q)
    ensures forall s: nat :: s in parts <==> Divided(prim, sites, s)
  {
    lcm, parts := 1, [];
    forall q ensures Divides(1, q) { assert q == Times(1, q); }
    for s := 0 to |sites|
      invariant lcm > 0
      invariant forall q :: Divides(lcm, q) <==> MultipleOfAll(prim, sites[..s], q)
      invariant forall t: nat :: t in parts <==> t < s && Divided(prim, sites, t)
    {
      var d := Divisor(prim, sites[s]);
      DivisorPositive(prim, sites[s]);
      forall q
        ensures MultipleOfAll(prim, sites[..s + 1], q) <==>
          MultipleOfAll(prim, sites[..s], q) && (d.Some? ==> Divides(d.value, q))
      {
        AddSite(prim, sites, s, q);
      }
      if d.Some? {
        LcmPositive(lcm, d.value);
        forall q ensures Divides(Lcm(lcm, d.value), q) <==> Divides(lcm, q) && Divides(d.value, q) {
          LcmExactly(lcm, d.value, q);
        }
        lcm := Lcm(lcm, d.value);
        parts := parts + [s];
      }
    }
    assert sites[..|sites|] == sites;
  }

  lemma AddSite(prim: Scale, sites: seq<seq<Decorator>>, s: nat, q: int)
    requires s < |sites|
    ensures MultipleOfAll(prim, sites[..s + 1], q) <==>
      (MultipleOfAll(prim, sites[..s], q) &&
          (Divisor(prim, sites[s]).Some? ==> Divides(Divisor(prim, sites[s]).value, q)))
  {
    if MultipleOfAll(prim, sites[..s + 1], q) {
      assert Divided(prim, sites[..s + 1], s) <==> Divisor(prim, sites[s]).Some?;
      assert forall t: nat :: Divided(prim, sites[..s], t) ==> Divided(prim, sites[..s + 1], t);
    }
    if MultipleOfAll(prim, sites[..s], q) {
      assert forall t: nat :: Divided(prim, sites[..s + 1], t) ==> t == s || Divided(prim, sites[..s], t);
    }
  }

  predicate LimitsInRange(prim: Scale, ls: seq<Limit>) {
    prim.Whole? ==> forall l :: l in ls && l.bound.limits == Value && l.at.Some? ==> prim.lo <= l.at.value <= prim.hi
  }

  lemma WindowEnds(prim: Scale, ls: seq<Limit>, lo: Option<nat>, hi: Option<nat>, q: int)
    requires prim.Whole? && LimitsInRange(prim, ls)
    requires FirstTightest(ls, |ls|, true, lo) && FirstTightest(ls, |ls|, false, hi)
    ensures InWindow(prim, Held(ls), q) <==>
      (&& (if lo.Some? then ls[lo.value].at.value else prim.lo) <= q
       && q <= (if hi.Some? then ls[hi.value].at.value else prim.hi))
  {
    assert forall l :: l in Held(ls) && l.bound.limits == Value && l.at.Some? ==> Bears(l, true) || Bears(l, false);
    assert lo.Some? ==> ls[lo.value] in Held(ls);
    assert hi.Some? ==> ls[hi.value] in Held(ls);
  }

  method ReportNoMultiple(prim: Scale, sites: seq<seq<Decorator>>, ls: seq<Limit>) returns (reported: bool)
    requires OwnFirst(ls) && LimitsInRange(prim, ls)
    ensures reported == NoMultipleReported(prim, sites, Held(ls))
  {
    if prim.Rationals? { return false; }
    var lcm, parts := DivisorsOf(prim, sites);
    if |parts| == 0 {
      assert forall s: nat :: !Divided(prim, sites, s);
      return false;
    }
    assert Divided(prim, sites, parts[0]);
    var lo, hi := TightestBounds(ls);
    OwnTightest(ls, true, lo);
    OwnTightest(ls, false, hi);
    if lo.Some? { parts := parts + [ls[lo.value].site]; }
    if hi.Some? { parts := parts + [ls[hi.value].site]; }
    assert 0 in parts <==> TakesPart(prim, sites, Held(ls));
    var from := if lo.Some? then ls[lo.value].at.value else prim.lo;
    var to := if hi.Some? then ls[hi.value].at.value else prim.hi;
    var first := FirstMultiple(from, lcm);
    FirstMultipleLeast(from, lcm);
    forall q ensures InWindow(prim, Held(ls), q) <==> from <= q <= to {
      WindowEnds(prim, ls, lo, hi, q);
    }
    if first <= to {
      assert InWindow(prim, Held(ls), first);
      return false;
    }
    return 0 in parts;
  }

  /** Whether the check of sites[0] reports. */
  ghost predicate Reports(prim: Scale, sites: seq<seq<Decorator>>) {
    var ls := LimitsOf(prim, sites);
    PairReported(ls) || PastScaleReported(ls) || NoMultipleReported(prim, sites, ls)
  }

  lemma RangeOfLimits(prim: Scale, sites: seq<seq<Decorator>>, ls: seq<Limit>)
    requires Held(ls) == LimitsOf(prim, sites)
    ensures LimitsInRange(prim, ls)
  {
    assert forall l :: l in ls ==> l in Held(ls);
  }

  method CheckValueDomain(prim: Scale, sites: seq<seq<Decorator>>) returns (reported: bool)
    ensures reported == Reports(prim, sites)
  {
    var ls := SiteLimits(prim, sites);
    RangeOfLimits(prim, sites, ls);
    reported := ReportContradictingPairs(ls);
    var past := false;
    if !reported { past := ReportLimitsPastScale(ls); }
    if reported || past { return true; }
    reported := ReportNoMultiple(prim, sites, ls);
  }
}
