/** Bound decorators and the bounds a decorator list declares. */
module Constraints {
  import opened Ast

  /** What a bound measures. */
  datatype Limits = Value | Length | ItemCount

  /** A decorator with its positional arguments; an argument that is not a
      number is None. */
  datatype Decorator = Decorator(name: string, args: seq<Option<real>>)

  datatype Side = Side(lower: bool, strict: bool)

  /** One bound; dec is the position of its decorator in the list. */
  datatype Bound = Bound(dec: nat, limits: Limits, side: Side, value: real)

  datatype BoundSpec = BoundSpec(limits: Limits, sides: seq<Side>)

  const Above := Side(true, true)
  const AtLeast := Side(true, false)
  const Under := Side(false, true)
  const AtMost := Side(false, false)

  function SpecOf(name: string): Option<BoundSpec> {
    match name
    case "gt" => Some(BoundSpec(Value, [Above]))
    case "gte" => Some(BoundSpec(Value, [AtLeast]))
    case "lt" => Some(BoundSpec(Value, [Under]))
    case "lte" => Some(BoundSpec(Value, [AtMost]))
    case "range" => Some(BoundSpec(Value, [AtLeast, AtMost]))
    case "positive" => Some(BoundSpec(Value, [Above]))
    case "negative" => Some(BoundSpec(Value, [Under]))
    case "length" => Some(BoundSpec(Length, [AtLeast, AtMost]))
    case "minLength" => Some(BoundSpec(Length, [AtLeast]))
    case "maxLength" => Some(BoundSpec(Length, [AtMost]))
    case "minItems" => Some(BoundSpec(ItemCount, [AtLeast]))
    case "maxItems" => Some(BoundSpec(ItemCount, [AtMost]))
    case _ => None
  }

  /** A flag takes no argument and bounds at 0. */
  predicate IsFlag(name: string) { name == "positive" || name == "negative" }

  /** The arguments that set the sides in order; a one-argument length sets
      both. */
  function BoundArgs(d: Decorator): seq<Option<real>> {
    if d.name == "length" && |d.args| == 1 then [d.args[0], d.args[0]] else d.args
  }

  /** The bounds one decorator puts: none when it bounds nothing, or its
      arguments do not fit its sides or are not all numbers. */
  function BoundsOf(d: Decorator, dec: nat): seq<Bound> {
    var spec := SpecOf(d.name);
    if spec.None? then []
    else if IsFlag(d.name) then [Bound(dec, spec.value.limits, spec.value.sides[0], 0.0)]
    else
      var args := BoundArgs(d);
      if |args| != |spec.value.sides| || None in args then []
      else
        seq(|args|, i requires 0 <= i < |args| =>
          assert args[i] in args; Bound(dec, spec.value.limits, spec.value.sides[i], args[i].value))
  }

  /** Of several decorators with one bound name only the first puts bounds. */
  predicate Counts(decs: seq<Decorator>, i: nat)
    requires i < |decs|
  {
    forall j :: 0 <= j < i ==> decs[j].name != decs[i].name
  }

  /** b is a bound the list puts. */
  predicate Declares(decs: seq<Decorator>, b: Bound) {
    b.dec < |decs| && Counts(decs, b.dec) && b in BoundsOf(decs[b.dec], b.dec)
  }

  /** The bounds of the list, in order, each decorator name taken once. */
  method DeclaredBounds(decs: seq<Decorator>) returns (out: seq<Bound>)
    ensures forall b :: b in out <==> Declares(decs, b)
  {
    out := [];
    var seen: set<string> := {};
    for n := 0 to |decs|
      invariant forall s :: s in seen <==> SpecOf(s).Some? && exists j :: 0 <= j < n && decs[j].name == s
      invariant forall b :: b in out <==> b.dec < n && Declares(decs, b)
    {
      var d := decs[n];
      if SpecOf(d.name).Some? && d.name !in seen {
        assert Counts(decs, n);
        out := out + BoundsOf(d, n);
      } else {
        assert SpecOf(d.name).None? || !Counts(decs, n);
        assert forall b :: b in BoundsOf(d, n) ==> SpecOf(d.name).Some?;
      }
      if SpecOf(d.name).Some? { seen := seen + {d.name}; }
    }
  }

  /** The real numbers within a bound. */
  predicate Admits(b: Bound, q: real) {
    if b.side.lower then if b.side.strict then q > b.value else q >= b.value
    else if b.side.strict then q < b.value else q <= b.value
  }

  /** Two bounds of one decorator are its non-strict ends. */
  lemma TwoEnded(decs: seq<Decorator>, lo: Bound, hi: Bound)
    requires Declares(decs, lo) && Declares(decs, hi) && lo.dec == hi.dec
    requires lo.side.lower && !hi.side.lower
    ensures !lo.side.strict && !hi.side.strict && lo.limits == hi.limits
  {
    var d := decs[lo.dec];
    var spec := SpecOf(d.name).value;
    assert lo.side in spec.sides && hi.side in spec.sides;
  }
}
