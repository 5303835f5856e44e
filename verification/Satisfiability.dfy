/** The value-domain check reports exactly the empty domains. */
module Satisfiability {
  import opened Ast
  import opened Constraints
  import opened Multiples
  import opened NumericDomain
  import opened Conditions

  /** No quantity meets the bounds and divisors. */
  ghost predicate Unmet(prim: Scale, sites: seq<seq<Decorator>>, kind: Limits) {
    forall q :: !MeetsBounds(prim, sites, kind, q)
  }

  lemma UnmetExactly(prim: Scale, sites: seq<seq<Decorator>>, kind: Limits)
    ensures Unmet(prim, sites, kind) <==> Empty(prim, sites, kind)
  {
    forall q ensures MeetsBounds(prim, sites, kind, q) <==> Meets(prim, sites, kind, q) {
      MeetsExactly(prim, sites, kind, q);
    }
  }

  lemma LimitAdmits(prim: Scale, sites: seq<seq<Decorator>>, l: Limit, q: real)
    requires l in LimitsOf(prim, sites) && MeetsBounds(prim, sites, l.bound.limits, q)
    ensures Admits(l.bound, q) && !l.none
    ensures l.at.Some? ==> Within(l.bound.side, l.at.value, q.Floor)
  {
    var sc := ScaleOf(prim, l.bound.limits);
    if sc.Whole? {
      assert q.Floor as real == q;
      LimitMeans(sc, l.bound, l.site, q.Floor);
    }
  }

  /** A report means that some quantity the type needs cannot exist: no value,
      length or item count meets what all the decorators ask. */
  lemma ReportSound(prim: Scale, sites: seq<seq<Decorator>>)
    requires Reports(prim, sites)
    ensures exists kind :: Empty(prim, sites, kind)
  {
    ReportUnmet(prim, sites);
    var kind :| Unmet(prim, sites, kind);
    UnmetExactly(prim, sites, kind);
  }

  lemma ReportUnmet(prim: Scale, sites: seq<seq<Decorator>>)
    requires Reports(prim, sites)
    ensures exists kind :: Unmet(prim, sites, kind)
  {
    var ls := LimitsOf(prim, sites);
    if PairReported(ls) {
      var lo, hi :| lo in ls && hi in ls && Paired(lo, hi) && Contradicts(lo, hi);
      PairEmpty(prim, sites, lo, hi);
    } else if PastScaleReported(ls) {
      var l :| l in ls && l.site == 0 && l.none;
      forall q ensures !MeetsBounds(prim, sites, l.bound.limits, q) {
        if MeetsBounds(prim, sites, l.bound.limits, q) { LimitAdmits(prim, sites, l, q); }
      }
      assert Unmet(prim, sites, l.bound.limits);
    } else {
      forall q ensures !MeetsBounds(prim, sites, Value, q) {
        if MeetsBounds(prim, sites, Value, q) { MeetsInWindow(prim, sites, q); }
      }
      assert Unmet(prim, sites, Value);
    }
  }

  lemma PairEmpty(prim: Scale, sites: seq<seq<Decorator>>, lo: Limit, hi: Limit)
    requires lo in LimitsOf(prim, sites) && hi in LimitsOf(prim, sites)
    requires Paired(lo, hi) && Contradicts(lo, hi)
    ensures Unmet(prim, sites, lo.bound.limits)
  {
    forall q ensures !MeetsBounds(prim, sites, lo.bound.limits, q) {
      if MeetsBounds(prim, sites, lo.bound.limits, q) {
        LimitAdmits(prim, sites, lo, q);
        LimitAdmits(prim, sites, hi, q);
      }
    }
  }

  lemma MeetsInWindow(prim: Scale, sites: seq<seq<Decorator>>, q: real)
    requires prim.Whole? && MeetsBounds(prim, sites, Value, q)
    ensures InWindow(prim, LimitsOf(prim, sites), q.Floor)
  {
    forall l | l in LimitsOf(prim, sites) && l.bound.limits == Value && l.at.Some?
      ensures Within(l.bound.side, l.at.value, q.Floor)
    {
      LimitAdmits(prim, sites, l, q);
    }
  }

  /** What other checks settle for a decorator list: bounds on a whole scale
      are whole and in range, and two-ended bounds are in order. */
  ghost predicate Settled(prim: Scale, decs: seq<Decorator>) {
    && (forall b :: Declares(decs, b) && ScaleOf(prim, b.limits).Whole? ==>
        IsWhole(b.value) && OnScale(ScaleOf(prim, b.limits), b.value))
    && (forall lo, hi | Declares(decs, lo) && Declares(decs, hi) && lo.dec == hi.dec &&
        lo.side.lower && !hi.side.lower :: lo.value <= hi.value)
  }

  /** A field's own decorators, then those of the scalar its type names. */
  function Sites(field: seq<Decorator>, scalar: Option<seq<Decorator>>): seq<seq<Decorator>> {
    [field] + (if scalar.Some? then [scalar.value] else [])
  }

  ghost predicate Silent(prim: Scale, field: seq<Decorator>, scalar: Option<seq<Decorator>>) {
    !Reports(prim, Sites(field, scalar)) && (scalar.Some? ==> !Reports(prim, [scalar.value]))
  }

  ghost predicate SettledSites(prim: Scale, field: seq<Decorator>, scalar: Option<seq<Decorator>>) {
    && Settled(prim, field) && (scalar.Some? ==> Settled(prim, scalar.value))
    && (prim.Whole? ==> prim.lo <= prim.hi)
  }

  /** The scalar's own limit that a field's check holds as a later site's. */
  lemma ScalarLimit(prim: Scale, field: seq<Decorator>, scalar: Option<seq<Decorator>>, l: Limit)
    requires l in LimitsOf(prim, Sites(field, scalar)) && l.site > 0
    ensures scalar.Some? && l.(site := 0) in LimitsOf(prim, [scalar.value])
  {
  }

  /** In silence no lower limit contradicts an upper one. */
  lemma NoContradiction(prim: Scale, field: seq<Decorator>, scalar: Option<seq<Decorator>>, lo: Limit, hi: Limit)
    requires Silent(prim, field, scalar) && SettledSites(prim, field, scalar)
    requires lo in LimitsOf(prim, Sites(field, scalar)) && hi in LimitsOf(prim, Sites(field, scalar))
    requires lo.bound.side.lower && !hi.bound.side.lower && lo.bound.limits == hi.bound.limits
    ensures !Contradicts(lo, hi)
  {
    var sites := Sites(field, scalar);
    if lo.site == hi.site && lo.bound.dec == hi.bound.dec {
      assert Settled(prim, sites[lo.site]);
      TwoEnded(sites[lo.site], lo.bound, hi.bound);
      SameDecorator(prim, lo, hi);
    } else if lo.site == 0 || hi.site == 0 {
      assert Paired(lo, hi);
    } else {
      ScalarLimit(prim, field, scalar, lo);
      ScalarLimit(prim, field, scalar, hi);
      assert Paired(lo.(site := 0), hi.(site := 0));
    }
  }

  lemma SameDecorator(prim: Scale, lo: Limit, hi: Limit)
    requires lo == LimitOn(ScaleOf(prim, lo.bound.limits), lo.bound, lo.site)
    requires hi == LimitOn(ScaleOf(prim, hi.bound.limits), hi.bound, hi.site)
    requires !lo.bound.side.strict && !hi.bound.side.strict && lo.bound.value <= hi.bound.value
    ensures !Contradicts(lo, hi)
  {
  }

  /** In silence every limit on a whole scale stands at a number of it. */
  lemma LimitStands(prim: Scale, field: seq<Decorator>, scalar: Option<seq<Decorator>>, l: Limit)
    requires Silent(prim, field, scalar) && SettledSites(prim, field, scalar)
    requires l in LimitsOf(prim, Sites(field, scalar)) && ScaleOf(prim, l.bound.limits).Whole?
    ensures var sc := ScaleOf(prim, l.bound.limits); l.at.Some? && sc.lo <= l.at.value <= sc.hi
  {
    var sites := Sites(field, scalar);
    var sc := ScaleOf(prim, l.bound.limits);
    assert Settled(prim, sites[l.site]);
    LimitMeans(sc, l.bound, l.site, sc.lo);
    if l.site > 0 { ScalarLimit(prim, field, scalar, l); }
  }

  /** A limit of the kind on one side. */
  predicate OnSide(l: Limit, kind: Limits, lower: bool) {
    l.bound.limits == kind && l.at.Some? && l.bound.side.lower == lower
  }

  /** Some limit at least as tight as l is the tightest of its side. */
  lemma {:induction false} TightestOver(ls: iset<Limit>, kind: Limits, lower: bool, lo: int, hi: int, l: Limit)
    returns (t: Limit)
    requires forall m :: m in ls && OnSide(m, kind, lower) ==> lo <= m.at.value <= hi
    requires l in ls && OnSide(l, kind, lower)
    ensures t in ls && OnSide(t, kind, lower) && !Tighter(l, t)
    ensures forall m :: m in ls && OnSide(m, kind, lower) ==> !Tighter(m, t)
    decreases if lower then hi - l.at.value else l.at.value - lo
  {
    if m :| m in ls && OnSide(m, kind, lower) && Tighter(m, l) {
      t := TightestOver(ls, kind, lower, lo, hi, m);
    } else {
      t := l;
    }
  }

  /** In silence the limits of one kind leave a quantity of a whole scale. */
  lemma Window(prim: Scale, field: seq<Decorator>, scalar: Option<seq<Decorator>>, kind: Limits) returns (q: int)
    requires Silent(prim, field, scalar) && SettledSites(prim, field, scalar)
    requires ScaleOf(prim, kind).Whole?
    ensures var sc := ScaleOf(prim, kind); sc.lo <= q <= sc.hi
    ensures forall l :: l in LimitsOf(prim, Sites(field, scalar)) && l.bound.limits == kind ==>
        l.at.Some? && Within(l.bound.side, l.at.value, q)
  {
    var sites := Sites(field, scalar);
    var ls := LimitsOf(prim, sites);
    var sc := ScaleOf(prim, kind);
    forall l | l in ls && l.bound.limits == kind ensures l.at.Some? && sc.lo <= l.at.value <= sc.hi {
      LimitStands(prim, field, scalar, l);
    }
    if l :| l in ls && OnSide(l, kind, true) {
      var t := TightestOver(ls, kind, true, sc.lo, sc.hi, l);
      q := t.at.value;
      forall m | m in ls && m.bound.limits == kind ensures m.at.Some? && Within(m.bound.side, m.at.value, q) {
        if m.bound.side.lower { assert OnSide(m, kind, true); }
        else { NoContradiction(prim, field, scalar, t, m); }
      }
    } else {
      q := sc.lo;
      forall m | m in ls && m.bound.limits == kind ensures m.at.Some? && Within(m.bound.side, m.at.value, q) {
        assert !OnSide(m, kind, true);
      }
    }
  }

  /** A whole number that every limit of the kind admits is a quantity of it. */
  lemma WholeMeets(prim: Scale, sites: seq<seq<Decorator>>, kind: Limits, q: int)
    requires var sc := ScaleOf(prim, kind); sc.Whole? && sc.lo <= q <= sc.hi
    requires forall l :: l in LimitsOf(prim, sites) && l.bound.limits == kind ==>
        l.at.Some? && Within(l.bound.side, l.at.value, q)
    requires kind == Value ==> MultipleOfAll(prim, sites, q)
    ensures MeetsBounds(prim, sites, kind, q as real)
  {
    var sc := ScaleOf(prim, kind);
    assert (q as real).Floor == q;
    forall s: nat, b | s < |sites| && Declares(sites[s], b) && b.limits == kind ensures Admits(b, q as real) {
      var l := LimitOn(sc, b, s);
      assert IsLimit(prim, sites, l);
      assert l in LimitsOf(prim, sites);
      LimitMeans(sc, b, s, q);
    }
  }

  lemma CountWitness(prim: Scale, field: seq<Decorator>, scalar: Option<seq<Decorator>>, kind: Limits)
    requires Silent(prim, field, scalar) && SettledSites(prim, field, scalar) && kind != Value
    ensures !Unmet(prim, Sites(field, scalar), kind)
  {
    var q := Window(prim, field, scalar, kind);
    WholeMeets(prim, Sites(field, scalar), kind, q);
  }

  /** When the field takes no part, its limits follow from the scalar's. */
  lemma ScalarDecides(prim: Scale, field: seq<Decorator>, scalar: Option<seq<Decorator>>, q: int)
    requires prim.Whole? && Silent(prim, field, scalar) && SettledSites(prim, field, scalar) && scalar.Some?
    requires !TakesPart(prim, Sites(field, scalar), LimitsOf(prim, Sites(field, scalar)))
    requires InWindow(prim, LimitsOf(prim, [scalar.value]), q)
    ensures InWindow(prim, LimitsOf(prim, Sites(field, scalar)), q)
  {
    var ls := LimitsOf(prim, Sites(field, scalar));
    forall m | m in ls && m.bound.limits == Value ensures m.at.Some? && prim.lo <= m.at.value <= prim.hi {
      LimitStands(prim, field, scalar, m);
    }
    forall l | l in ls && l.bound.limits == Value && l.at.Some? ensures Within(l.bound.side, l.at.value, q) {
      var t := TightestOver(ls, Value, l.bound.side.lower, prim.lo, prim.hi, l);
      assert forall m :: m in ls && Bears(m, l.bound.side.lower) ==> OnSide(m, Value, l.bound.side.lower);
      assert Tightest(ls, t, l.bound.side.lower);
      ScalarLimit(prim, field, scalar, t);
      assert Within(t.bound.side, t.at.value, q);
    }
  }

  lemma ScalarDivides(prim: Scale, field: seq<Decorator>, scalar: Option<seq<Decorator>>, q: int)
    requires scalar.Some? && !Divided(prim, Sites(field, scalar), 0)
    ensures MultipleOfAll(prim, [scalar.value], q) ==> MultipleOfAll(prim, Sites(field, scalar), q)
  {
    if MultipleOfAll(prim, [scalar.value], q) {
      forall s: nat | Divided(prim, Sites(field, scalar), s)
        ensures Divides(Divisor(prim, Sites(field, scalar)[s]).value, q)
      {
        assert s == 1;
        assert Divided(prim, [scalar.value], 0);
      }
    }
  }

  /** In silence some number within the limits is a multiple of all divisors. */
  lemma MultipleExists(prim: Scale, field: seq<Decorator>, scalar: Option<seq<Decorator>>) returns (q: int)
    requires prim.Whole? && Silent(prim, field, scalar) && SettledSites(prim, field, scalar)
    requires exists s: nat :: Divided(prim, Sites(field, scalar), s)
    ensures InWindow(prim, LimitsOf(prim, Sites(field, scalar)), q) && MultipleOfAll(prim, Sites(field, scalar), q)
  {
    var sites := Sites(field, scalar);
    var ls := LimitsOf(prim, sites);
    if TakesPart(prim, sites, ls) {
      q :| InWindow(prim, ls, q) && MultipleOfAll(prim, sites, q);
    } else {
      var s: nat :| Divided(prim, sites, s);
      assert s == 1;
      assert Divided(prim, [scalar.value], 0);
      assert TakesPart(prim, [scalar.value], LimitsOf(prim, [scalar.value]));
      q :| InWindow(prim, LimitsOf(prim, [scalar.value]), q) && MultipleOfAll(prim, [scalar.value], q);
      ScalarDecides(prim, field, scalar, q);
      ScalarDivides(prim, field, scalar, q);
    }
  }

  lemma ValueWitness(prim: Scale, field: seq<Decorator>, scalar: Option<seq<Decorator>>)
    requires prim.Whole? && Silent(prim, field, scalar) && SettledSites(prim, field, scalar)
    ensures !Unmet(prim, Sites(field, scalar), Value)
  {
    var sites := Sites(field, scalar);
    var q: int;
    if exists s: nat :: Divided(prim, sites, s) {
      q := MultipleExists(prim, field, scalar);
      forall l | l in LimitsOf(prim, sites) && l.bound.limits == Value ensures l.at.Some? {
        LimitStands(prim, field, scalar, l);
      }
    } else {
      q := Window(prim, field, scalar, Value);
    }
    WholeMeets(prim, sites, Value, q);
  }

  lemma MeetsScalar(prim: Scale, field: seq<Decorator>, scalar: seq<Decorator>, kind: Limits, q: real)
    requires MeetsBounds(prim, Sites(field, Some(scalar)), kind, q)
    ensures MeetsBounds(prim, [scalar], kind, q)
  {
    var sites := Sites(field, Some(scalar));
    assert sites[1] == scalar;
    assert forall s: nat :: Divided(prim, [scalar], s) ==> s == 0 && Divided(prim, sites, 1);
  }

  /** A scalar without a quantity leaves its fields none. */
  lemma ScalarEmpty(prim: Scale, field: seq<Decorator>, scalar: seq<Decorator>, kind: Limits)
    requires Unmet(prim, [scalar], kind)
    ensures Unmet(prim, Sites(field, Some(scalar)), kind)
  {
    var sites := Sites(field, Some(scalar));
    forall q ensures !MeetsBounds(prim, sites, kind, q) {
      if MeetsBounds(prim, sites, kind, q) { MeetsScalar(prim, field, scalar, kind, q); }
    }
  }

  ghost function Flat(bss: seq<seq<Bound>>): seq<Bound> {
    if bss == [] then [] else Flat(bss[..|bss| - 1]) + bss[|bss| - 1]
  }

  lemma {:induction false} FlatExactly(bss: seq<seq<Bound>>, b: Bound)
    ensures b in Flat(bss) <==> exists i :: 0 <= i < |bss| && b in bss[i]
  {
    if bss != [] {
      var rest := bss[..|bss| - 1];
      FlatExactly(rest, b);
      assert forall i :: 0 <= i < |rest| ==> rest[i] == bss[i];
    }
  }

  /** The bounds of a list. */
  ghost function BoundsIn(decs: seq<Decorator>): seq<Bound> {
    Flat(seq(|decs|, i requires 0 <= i < |decs| => if Counts(decs, i) then BoundsOf(decs[i], i) else []))
  }

  lemma BoundsInExactly(decs: seq<Decorator>, b: Bound)
    ensures b in BoundsIn(decs) <==> Declares(decs, b)
  {
    var bss := seq(|decs|, i requires 0 <= i < |decs| => if Counts(decs, i) then BoundsOf(decs[i], i) else []);
    FlatExactly(bss, b);
    if Declares(decs, b) { assert b in bss[b.dec]; }
  }

  /** The tightest bound of a side, if there is one. */
  lemma {:induction false} Extreme(bs: seq<Bound>, lower: bool) returns (t: Option<Bound>)
    ensures t.None? ==> forall b :: b in bs ==> b.side.lower != lower
    ensures t.Some? ==> t.value in bs && t.value.side.lower == lower
    ensures t.Some? ==> forall b :: b in bs && b.side.lower == lower ==>
        if lower then b.value <= t.value.value else b.value >= t.value.value
  {
    if bs == [] {
      t := None;
    } else {
      var rest := bs[1..];
      assert forall b :: b in bs <==> b == bs[0] || b in rest;
      t := Extreme(rest, lower);
      if bs[0].side.lower == lower &&
          (t.None? || (if lower then bs[0].value > t.value.value else bs[0].value < t.value.value)) {
        t := Some(bs[0]);
      }
    }
  }

  /** Bounds that agree pairwise leave a number between them. */
  lemma Between(bs: seq<Bound>) returns (q: real)
    requires forall lo, hi :: lo in bs && hi in bs && lo.side.lower && !hi.side.lower ==> Agree(lo, hi)
    ensures forall b :: b in bs ==> Admits(b, q)
  {
    var lo := Extreme(bs, true);
    var hi := Extreme(bs, false);
    if lo.None? {
      q := if hi.None? then 0.0 else hi.value.value - 1.0;
    } else if hi.None? {
      q := lo.value.value + 1.0;
    } else {
      q := (lo.value.value + hi.value.value) / 2.0;
    }
  }

  predicate Agree(lo: Bound, hi: Bound) {
    lo.value < hi.value || (lo.value == hi.value && !lo.side.strict && !hi.side.strict)
  }

  /** In silence the bounds of the two sites agree pairwise. */
  lemma SilentAgree(prim: Scale, field: seq<Decorator>, scalar: Option<seq<Decorator>>, lo: Bound, s: nat, hi: Bound,
                    r: nat)
    requires prim.Rationals? && Silent(prim, field, scalar) && SettledSites(prim, field, scalar)
    requires s < |Sites(field, scalar)| && r < |Sites(field, scalar)| && lo.limits == hi.limits == Value
    requires Declares(Sites(field, scalar)[s], lo) && Declares(Sites(field, scalar)[r], hi)
    requires lo.side.lower && !hi.side.lower
    ensures Agree(lo, hi)
  {
    var l, h := LimitOn(prim, lo, s), LimitOn(prim, hi, r);
    assert IsLimit(prim, Sites(field, scalar), l) && IsLimit(prim, Sites(field, scalar), h);
    NoContradiction(prim, field, scalar, l, h);
  }

  /** Each of bs is a bound on the value that some site declares, and each such
      bound is one of bs. */
  ghost predicate Gathered(sites: seq<seq<Decorator>>, bs: seq<Bound>) {
    forall b :: b in bs <==> b.limits == Value && exists s: nat :: s < |sites| && Declares(sites[s], b)
  }

  lemma Gather(field: seq<Decorator>, scalar: Option<seq<Decorator>>) returns (bs: seq<Bound>)
    ensures Gathered(Sites(field, scalar), bs)
  {
    var sites := Sites(field, scalar);
    var later := if scalar.Some? then scalar.value else [];
    bs := Chosen(BoundsIn(field) + BoundsIn(later));
    forall b ensures b in bs <==> b.limits == Value && exists s: nat :: s < |sites| && Declares(sites[s], b) {
      BoundsInExactly(field, b);
      BoundsInExactly(later, b);
      assert sites[0] == field && (scalar.Some? ==> sites[1] == later);
    }
  }

  lemma DenseWitness(prim: Scale, field: seq<Decorator>, scalar: Option<seq<Decorator>>)
    requires prim.Rationals? && Silent(prim, field, scalar) && SettledSites(prim, field, scalar)
    ensures !Unmet(prim, Sites(field, scalar), Value)
  {
    var sites := Sites(field, scalar);
    var bs := Gather(field, scalar);
    forall lo, hi | lo in bs && hi in bs && lo.side.lower && !hi.side.lower ensures Agree(lo, hi) {
      var s: nat :| s < |sites| && Declares(sites[s], lo);
      var r: nat :| r < |sites| && Declares(sites[r], hi);
      SilentAgree(prim, field, scalar, lo, s, hi, r);
    }
    var q := Between(bs);
    DenseMeets(prim, sites, bs, q);
  }

  lemma DenseMeets(prim: Scale, sites: seq<seq<Decorator>>, bs: seq<Bound>, q: real)
    requires prim.Rationals? && Gathered(sites, bs) && forall b :: b in bs ==> Admits(b, q)
    ensures MeetsBounds(prim, sites, Value, q)
  {
    forall s: nat | s < |sites| ensures !Divided(prim, sites, s) {}
  }

  /** The bounds on the value among bs. */
  lemma {:induction false} Chosen(bs: seq<Bound>) returns (value: seq<Bound>)
    ensures forall b :: b in value <==> b in bs && b.limits == Value
  {
    value := [];
    if bs != [] {
      value := Chosen(bs[1..]);
      if bs[0].limits == Value { value := value + [bs[0]]; }
    }
  }

  /** The check of a field together with the check of its scalar reports
      exactly when no value, no length or no item count meets what their
      decorators ask. */
  lemma ReportsExactlyEmpty(prim: Scale, field: seq<Decorator>, scalar: Option<seq<Decorator>>)
    requires SettledSites(prim, field, scalar)
    ensures !Silent(prim, field, scalar) <==> exists kind :: Empty(prim, Sites(field, scalar), kind)
  {
    ReportsExactlyUnmet(prim, field, scalar);
    forall kind ensures Unmet(prim, Sites(field, scalar), kind) <==> Empty(prim, Sites(field, scalar), kind) {
      UnmetExactly(prim, Sites(field, scalar), kind);
    }
  }

  lemma ReportsExactlyUnmet(prim: Scale, field: seq<Decorator>, scalar: Option<seq<Decorator>>)
    requires SettledSites(prim, field, scalar)
    ensures !Silent(prim, field, scalar) <==> exists kind :: Unmet(prim, Sites(field, scalar), kind)
  {
    if Reports(prim, Sites(field, scalar)) {
      ReportUnmet(prim, Sites(field, scalar));
    } else if scalar.Some? && Reports(prim, [scalar.value]) {
      ReportUnmet(prim, [scalar.value]);
      var kind :| Unmet(prim, [scalar.value], kind);
      ScalarEmpty(prim, field, scalar.value, kind);
    } else {
      if prim.Whole? { ValueWitness(prim, field, scalar); } else { DenseWitness(prim, field, scalar); }
      CountWitness(prim, field, scalar, Length);
      CountWitness(prim, field, scalar, ItemCount);
      forall kind ensures !Unmet(prim, Sites(field, scalar), kind) {
        match kind { case Value => case Length => case ItemCount => }
      }
    }
  }

  /** The bound that the type implies: the check leaves it out. */
  function BoundImplied(prim: Scale, b: Bound): bool {
    var sc := ScaleOf(prim, b.limits);
    var l := LimitOn(sc, b, 0);
    if sc.Rationals? || l.at.None? then false
    else if b.side.lower then l.at.value <= sc.lo
    else l.at.value >= sc.hi
  }

  /** A bound whose value is on the scale is implied exactly when every
      quantity of the type meets it; one off the scale is never taken so. */
  lemma ImpliedExactly(prim: Scale, b: Bound)
    requires prim.Whole? ==> prim.lo <= prim.hi
    ensures var sc := ScaleOf(prim, b.limits);
      BoundImplied(prim, b) <==> sc.Whole? && OnScale(sc, b.value) && forall q :: OnScale(sc, q) ==> Admits(b, q)
  {
    var sc := ScaleOf(prim, b.limits);
    if sc.Whole? && OnScale(sc, b.value) {
      var end := if b.side.lower then sc.lo else sc.hi;
      LimitMeans(sc, b, 0, end);
      assert OnScale(sc, end as real);
      if BoundImplied(prim, b) {
        forall q | OnScale(sc, q) ensures Admits(b, q) { LimitMeans(sc, b, 0, q.Floor); }
      }
    }
  }
}
