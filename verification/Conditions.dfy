/** What decorators ask of a value, a length or an item count, decorator by
    decorator. */
module Conditions {
  import opened Ast
  import opened Constraints
  import Multiples
  import opened NumericDomain

  // ---- What one decorator asks ----

  predicate TakesOne(d: Decorator) { |d.args| == 1 && d.args[0].Some? }

  predicate TakesTwo(d: Decorator) { |d.args| == 2 && d.args[0].Some? && d.args[1].Some? }

  /** What d asks of a value q. */
  predicate AsksValue(d: Decorator, q: real) {
    && (d.name == "gt" && TakesOne(d) ==> q > d.args[0].value)
    && (d.name == "gte" && TakesOne(d) ==> q >= d.args[0].value)
    && (d.name == "lt" && TakesOne(d) ==> q < d.args[0].value)
    && (d.name == "lte" && TakesOne(d) ==> q <= d.args[0].value)
    && (d.name == "range" && TakesTwo(d) ==> d.args[0].value <= q <= d.args[1].value)
    && (d.name == "positive" ==> q > 0.0)
    && (d.name == "negative" ==> q < 0.0)
  }

  /** What d asks of a length q. */
  predicate AsksLength(d: Decorator, q: real) {
    && (d.name == "length" && TakesOne(d) ==> q == d.args[0].value)
    && (d.name == "length" && TakesTwo(d) ==> d.args[0].value <= q <= d.args[1].value)
    && (d.name == "minLength" && TakesOne(d) ==> q >= d.args[0].value)
    && (d.name == "maxLength" && TakesOne(d) ==> q <= d.args[0].value)
  }

  /** What d asks of an item count q. */
  predicate AsksCount(d: Decorator, q: real) {
    && (d.name == "minItems" && TakesOne(d) ==> q >= d.args[0].value)
    && (d.name == "maxItems" && TakesOne(d) ==> q <= d.args[0].value)
  }

  predicate Asks(d: Decorator, kind: Limits, q: real) {
    match kind
    case Value => AsksValue(d, q)
    case Length => AsksLength(d, q)
    case ItemCount => AsksCount(d, q)
  }

  /** The first of its name. */
  predicate First(decs: seq<Decorator>, i: nat) {
    i < |decs| && forall j :: 0 <= j < i ==> decs[j].name != decs[i].name
  }

  function Real(n: int): real { n as real }

  /** The whole number q is a multiple of what the decorator asks for; a divisor
      that is not a whole number from 1 to hi asks for nothing. */
  ghost predicate AsksMultiple(d: Decorator, hi: int, q: int) {
    forall n: int :: d.name == "multipleOf" && |d.args| > 0 && d.args[0] == Some(Real(n)) && 1 <= n <= hi ==>
      exists k: int :: q == n * k
  }

  // ---- What a quantity has to meet ----

  ghost predicate WholeBetween(q: real, lo: int, hi: int) { exists n: int :: q == Real(n) && lo <= n <= hi }

  /** q can be a value of the primitive, a length or an item count at all. */
  ghost predicate CanBe(prim: Scale, kind: Limits, q: real) {
    if kind != Value then WholeBetween(q, 0, 9_223_372_036_854_775_807)
    else prim.Whole? ==> WholeBetween(q, prim.lo, prim.hi)
  }

  /** q is a quantity of the kind that meets every decorator of every site. */
  ghost predicate Meets(prim: Scale, sites: seq<seq<Decorator>>, kind: Limits, q: real) {
    && CanBe(prim, kind, q)
    && (forall decs, i: nat :: decs in sites && First(decs, i) ==> Asks(decs[i], kind, q))
    && (kind == Value && prim.Whole? ==>
          forall decs, i: nat :: decs in sites && First(decs, i) ==> AsksMultiple(decs[i], prim.hi, q.Floor))
  }

  ghost predicate Empty(prim: Scale, sites: seq<seq<Decorator>>, kind: Limits) {
    forall q :: !Meets(prim, sites, kind, q)
  }

  // ---- The bounds say the same ----

  predicate WithinAll(bs: seq<Bound>, kind: Limits, q: real) {
    forall b :: b in bs && b.limits == kind ==> Admits(b, q)
  }

  lemma WithinNone(kind: Limits, q: real)
    ensures WithinAll([], kind, q)
  {
  }

  lemma WithinOne(b: Bound, kind: Limits, q: real)
    ensures WithinAll([b], kind, q) <==> (b.limits == kind ==> Admits(b, q))
  {
    assert b in [b];
  }

  lemma WithinTwo(a: Bound, b: Bound, kind: Limits, q: real)
    ensures WithinAll([a, b], kind, q) <==> (a.limits == kind ==> Admits(a, q)) && (b.limits == kind ==> Admits(b, q))
  {
    assert a in [a, b] && b in [a, b];
  }

  /** A decorator with one side. */
  lemma OneSide(d: Decorator, dec: nat, limits: Limits, side: Side)
    requires SpecOf(d.name) == Some(BoundSpec(limits, [side])) && !IsFlag(d.name) && d.name != "length"
    ensures BoundsOf(d, dec) == if TakesOne(d) then [Bound(dec, limits, side, d.args[0].value)] else []
  {
    if |d.args| == 1 {
      assert d.args == [d.args[0]];
      assert None in d.args <==> d.args[0].None?;
    }
  }

  lemma TwoSides(d: Decorator, dec: nat, limits: Limits)
    requires SpecOf(d.name) == Some(BoundSpec(limits, [AtLeast, AtMost])) && !IsFlag(d.name)
    ensures BoundsOf(d, dec) ==
      if TakesTwo(d) then [Bound(dec, limits, AtLeast, d.args[0].value), Bound(dec, limits, AtMost, d.args[1].value)]
      else if d.name == "length" && TakesOne(d) then
        [Bound(dec, limits, AtLeast, d.args[0].value), Bound(dec, limits, AtMost, d.args[0].value)]
      else []
  {
    var args := BoundArgs(d);
    if |args| == 2 {
      assert args == [args[0], args[1]];
      assert None in args <==> args[0].None? || args[1].None?;
    }
  }

  predicate OneSided(name: string) {
    name in {"gt", "gte", "lt", "lte", "minLength", "maxLength", "minItems", "maxItems"}
  }

  /** The side of a decorator with one. */
  function SideOf(name: string): (Limits, Side)
    requires OneSided(name)
  {
    match name
    case "gt" => (Value, Above)
    case "gte" => (Value, AtLeast)
    case "lt" => (Value, Under)
    case "lte" => (Value, AtMost)
    case "minLength" => (Length, AtLeast)
    case "maxLength" => (Length, AtMost)
    case "minItems" => (ItemCount, AtLeast)
    case _ => (ItemCount, AtMost)
  }

  lemma OneSidedMean(d: Decorator, dec: nat, kind: Limits, q: real)
    requires OneSided(d.name)
    ensures WithinAll(BoundsOf(d, dec), kind, q) <==> Asks(d, kind, q)
  {
    var limits, side := SideOf(d.name).0, SideOf(d.name).1;
    OneSide(d, dec, limits, side);
    if TakesOne(d) {
      WithinOne(Bound(dec, limits, side, d.args[0].value), kind, q);
    } else {
      WithinNone(kind, q);
    }
  }

  lemma TwoSidedMean(d: Decorator, dec: nat, kind: Limits, q: real)
    requires d.name == "range" || d.name == "length"
    ensures WithinAll(BoundsOf(d, dec), kind, q) <==> Asks(d, kind, q)
  {
    var limits := if d.name == "range" then Value else Length;
    TwoSides(d, dec, limits);
    if TakesTwo(d) {
      WithinTwo(Bound(dec, limits, AtLeast, d.args[0].value), Bound(dec, limits, AtMost, d.args[1].value), kind, q);
    } else if d.name == "length" && TakesOne(d) {
      WithinTwo(Bound(dec, limits, AtLeast, d.args[0].value), Bound(dec, limits, AtMost, d.args[0].value), kind, q);
    } else {
      WithinNone(kind, q);
    }
  }

  lemma FlagMeans(d: Decorator, dec: nat, kind: Limits, q: real)
    requires d.name == "positive" || d.name == "negative"
    ensures WithinAll(BoundsOf(d, dec), kind, q) <==> Asks(d, kind, q)
  {
    WithinOne(Bound(dec, Value, if d.name == "positive" then Above else Under, 0.0), kind, q);
  }

  /** The bounds of a decorator leave exactly the quantities it asks for. */
  lemma BoundsMean(d: Decorator, dec: nat, kind: Limits, q: real)
    ensures WithinAll(BoundsOf(d, dec), kind, q) <==> Asks(d, kind, q)
  {
    if OneSided(d.name) {
      OneSidedMean(d, dec, kind, q);
    } else if d.name == "range" || d.name == "length" {
      TwoSidedMean(d, dec, kind, q);
    } else if d.name == "positive" || d.name == "negative" {
      FlagMeans(d, dec, kind, q);
    } else {
      WithinNone(kind, q);
    }
  }

  /** So do the bounds of a list, decorator by decorator. */
  lemma DeclaredMean(decs: seq<Decorator>, kind: Limits, q: real)
    ensures (forall b :: Declares(decs, b) && b.limits == kind ==> Admits(b, q)) <==>
      (forall i: nat :: First(decs, i) ==> Asks(decs[i], kind, q))
  {
    forall i: nat | First(decs, i) ensures WithinAll(BoundsOf(decs[i], i), kind, q) <==> Asks(decs[i], kind, q) {
      BoundsMean(decs[i], i, kind, q);
    }
    if forall b :: Declares(decs, b) && b.limits == kind ==> Admits(b, q) {
      forall i: nat | First(decs, i) ensures Asks(decs[i], kind, q) {
        forall b | b in BoundsOf(decs[i], i) ensures b.dec == i { BoundsOwn(decs[i], i, b); }
        assert forall b :: b in BoundsOf(decs[i], i) && b.limits == kind ==> Declares(decs, b);
      }
    }
    if forall i: nat :: First(decs, i) ==> Asks(decs[i], kind, q) {
      forall b | Declares(decs, b) && b.limits == kind ensures Admits(b, q) { assert First(decs, b.dec); }
    }
  }

  lemma BoundsOwn(d: Decorator, dec: nat, b: Bound)
    requires b in BoundsOf(d, dec)
    ensures b.dec == dec
  {
  }

  // ---- The divisors ----

  lemma {:induction false} DivisorFirst(prim: Scale, decs: seq<Decorator>, n: int)
    requires prim.Whole?
    ensures Divisor(prim, decs) == Some(n) <==>
      exists i: nat :: First(decs, i) && decs[i].name == "multipleOf" && |decs[i].args| > 0 &&
        decs[i].args[0] == Some(Real(n)) && 1 <= n <= prim.hi
    decreases |decs|
  {
    if decs != [] {
      if decs[0].name == "multipleOf" {
        assert forall i: nat :: First(decs, i) && decs[i].name == "multipleOf" ==> i == 0;
        assert First(decs, 0);
      } else {
        DivisorFirst(prim, decs[1..], n);
        FirstLater(decs);
      }
    }
  }

  lemma FirstLater(decs: seq<Decorator>)
    requires decs != [] && decs[0].name != "multipleOf"
    ensures forall i: nat :: i < |decs| && decs[i].name == "multipleOf" ==>
      i > 0 && (First(decs, i) <==> First(decs[1..], i - 1)) && decs[1..][i - 1] == decs[i]
    ensures forall i: nat :: First(decs[1..], i) && decs[1..][i].name == "multipleOf" ==>
      First(decs, i + 1) && decs[i + 1] == decs[1..][i]
  {
    forall i: nat | i < |decs| && decs[i].name == "multipleOf"
      ensures i > 0 && (First(decs, i) <==> First(decs[1..], i - 1)) && decs[1..][i - 1] == decs[i]
    {
      assert forall j :: 0 < j < |decs| ==> decs[1..][j - 1] == decs[j];
      if First(decs[1..], i - 1) {
        forall j | 0 <= j < i ensures decs[j].name != decs[i].name { if j > 0 { assert decs[1..][j - 1] == decs[j]; } }
      }
    }
  }

  lemma DividesMeans(n: int, q: int)
    ensures Multiples.Divides(n, q) <==> exists k: int :: q == n * k
  {
    if Multiples.Divides(n, q) {
      var k :| q == Multiples.Times(n, k);
      assert q == n * k;
    }
    if k: int :| q == n * k { assert q == Multiples.Times(n, k); }
  }

  lemma MultiplesMean(prim: Scale, decs: seq<Decorator>, q: int)
    requires prim.Whole?
    ensures (Divisor(prim, decs).Some? ==> Multiples.Divides(Divisor(prim, decs).value, q)) <==>
      (forall i: nat :: First(decs, i) ==> AsksMultiple(decs[i], prim.hi, q))
  {
    var d := Divisor(prim, decs);
    if d.Some? {
      DivisorFirst(prim, decs, d.value);
      DividesMeans(d.value, q);
    }
    if d.Some? ==> Multiples.Divides(d.value, q) {
      forall i: nat, n: int | First(decs, i) && decs[i].name == "multipleOf" && |decs[i].args| > 0 &&
          decs[i].args[0] == Some(Real(n)) && 1 <= n <= prim.hi
        ensures exists k: int :: q == n * k
      {
        DivisorFirst(prim, decs, n);
      }
    }
  }

  // ---- The scales ----

  lemma CanBeExactly(prim: Scale, kind: Limits, q: real)
    ensures CanBe(prim, kind, q) <==> OnScale(ScaleOf(prim, kind), q)
  {
    if IsWhole(q) { assert q == Real(q.Floor); }
    forall n: int ensures Real(n).Floor == n {}
  }

  /** q is on its scale, within all bounds, and a multiple of all divisors. */
  ghost predicate MeetsBounds(prim: Scale, sites: seq<seq<Decorator>>, kind: Limits, q: real) {
    && OnScale(ScaleOf(prim, kind), q)
    && (forall s: nat, b :: s < |sites| && Declares(sites[s], b) && b.limits == kind ==> Admits(b, q))
    && (kind == Value ==> MultipleOfAll(prim, sites, q.Floor))
  }

  lemma SitesMean(sites: seq<seq<Decorator>>, kind: Limits, q: real)
    ensures (forall s: nat, b :: s < |sites| && Declares(sites[s], b) && b.limits == kind ==> Admits(b, q)) <==>
      (forall decs, i: nat :: decs in sites && First(decs, i) ==> Asks(decs[i], kind, q))
  {
    if forall s: nat, b :: s < |sites| && Declares(sites[s], b) && b.limits == kind ==> Admits(b, q) {
      forall decs, i: nat | decs in sites && First(decs, i) ensures Asks(decs[i], kind, q) {
        var s :| 0 <= s < |sites| && sites[s] == decs;
        DeclaredMean(sites[s], kind, q);
      }
    }
    if forall decs, i: nat :: decs in sites && First(decs, i) ==> Asks(decs[i], kind, q) {
      forall s: nat, b | s < |sites| && Declares(sites[s], b) && b.limits == kind ensures Admits(b, q) {
        assert sites[s] in sites;
        DeclaredMean(sites[s], kind, q);
      }
    }
  }

  ghost predicate DividedBy(prim: Scale, decs: seq<Decorator>, q: int) {
    Divisor(prim, decs).Some? ==> Multiples.Divides(Divisor(prim, decs).value, q)
  }

  lemma DivisorsMean(prim: Scale, sites: seq<seq<Decorator>>, q: int)
    ensures MultipleOfAll(prim, sites, q) <==>
      (prim.Whole? ==> forall decs, i: nat :: decs in sites && First(decs, i) ==> AsksMultiple(decs[i], prim.hi, q))
  {
    if prim.Whole? {
      forall decs
        ensures DividedBy(prim, decs, q) <==> forall i: nat :: First(decs, i) ==> AsksMultiple(decs[i], prim.hi, q)
      {
        MultiplesMean(prim, decs, q);
      }
      if MultipleOfAll(prim, sites, q) {
        forall decs | decs in sites ensures DividedBy(prim, decs, q) {
          var s :| 0 <= s < |sites| && sites[s] == decs;
          assert Divided(prim, sites, s) <==> Divisor(prim, decs).Some?;
        }
      }
      if forall decs :: decs in sites ==> DividedBy(prim, decs, q) {
        forall s: nat | Divided(prim, sites, s)
          ensures Multiples.Divides(Divisor(prim, sites[s]).value, q)
        {
          assert DividedBy(prim, sites[s], q);
        }
      }
    }
  }

  /** A quantity meets the decorators exactly when it meets their bounds. */
  lemma MeetsExactly(prim: Scale, sites: seq<seq<Decorator>>, kind: Limits, q: real)
    ensures Meets(prim, sites, kind, q) <==> MeetsBounds(prim, sites, kind, q)
  {
    CanBeExactly(prim, kind, q);
    SitesMean(sites, kind, q);
    DivisorsMean(prim, sites, q.Floor);
  }
}
