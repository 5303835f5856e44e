/** The fields of a type body and those its mixins promote. */
module Flatten {
  import opened Ast
  import opened Spelling

  /** A field with the package declaring it, its type as the view spells it. */
  datatype FlatField = FlatField(home: string, name: string, typ: TypeRef)

  /** The outcome of a walk: the fields in body order, the mixin types
      expanded for them in order, and whether a mixin named no type. */
  datatype Flat = Flat(fields: seq<FlatField>, order: seq<Key>, incomplete: bool)

  function Keys(order: seq<Key>): set<Key> { set k | k in order }

  /** The scope of the body of k, embedded by the mixin n in scope c. */
  function MixinScope(p: Project, k: Key, n: NamedRef, c: Scope): Scope
    requires k in p.types
  {
    BodyScope(p, k, SpellRef(p, n, c).args, c.view)
  }

  /** The fields of a body in order, each mixin replaced by the fields of its
      type, unless that was expanded before. */
  function Level(p: Project, body: seq<Member>, c: Scope, expanded: set<Key>): (r: Flat)
    decreases p.types.Keys - expanded, |body|
  {
    if body == [] then Flat([], [], false) else
      var last := |body| - 1;
      var r := Level(p, body[..last], c, expanded);
      match body[last]
      case Field(name, t) => r.(fields := r.fields + [FlatField(c.home, name, Spell(p, t, c))])
      case Mixin(n) =>
        var target := Target(p, c.home, n);
        if target == None then r.(incomplete := true)
        else
          var k := target.value;
          if k in expanded || k in r.order then r
          else
            var inner := Level(p, p.types[k].body, MixinScope(p, k, n, c), expanded + Keys(r.order) + {k});
            Flat(r.fields + inner.fields, r.order + [k] + inner.order, r.incomplete || inner.incomplete)
  }

  /** The fields of body, in scope c, and those its mixins promote. */
  function FlattenFields(p: Project, body: seq<Member>, c: Scope): Flat { Level(p, body, c, {}) }

  // ---- The walk of one flattening ----

  class FieldWalk {
    const p: Project
    var expanded: set<Key>
    var incomplete: bool

    constructor (p: Project)
      ensures this.p == p && expanded == {} && !incomplete
    {
      this.p := p;
      expanded, incomplete := {}, false;
    }

    method ExpandLevel(body: seq<Member>, c: Scope) returns (fields: seq<FlatField>)
      modifies this
      ensures var r := Level(p, body, c, old(expanded));
        && fields == r.fields && expanded == old(expanded) + Keys(r.order)
        && incomplete == (old(incomplete) || r.incomplete)
      decreases p.types.Keys - expanded, |body|, 1
    {
      fields := [];
      for i := 0 to |body|
        invariant var r := Level(p, body[..i], c, old(expanded));
          && fields == r.fields && expanded == old(expanded) + Keys(r.order)
          && incomplete == (old(incomplete) || r.incomplete)
      {
        ghost var before := Level(p, body[..i], c, old(expanded));
        assert body[..i + 1][..i] == body[..i];
        match body[i]
        case Field(name, t) =>
          fields := fields + [FlatField(c.home, name, Spell(p, t, c))];
        case Mixin(n) =>
          var promoted := ExpandMixin(n, c);
          fields := fields + promoted;
      }
      assert body[..|body|] == body;
    }

    method ExpandMixin(n: NamedRef, c: Scope) returns (fields: seq<FlatField>)
      modifies this
      ensures var target := Target(p, c.home, n);
        if target == None then fields == [] && expanded == old(expanded) && incomplete
        else if target.value in old(expanded) then
          fields == [] && expanded == old(expanded) && incomplete == old(incomplete)
        else
          var r := Level(p, p.types[target.value].body, MixinScope(p, target.value, n, c),
              old(expanded) + {target.value});
          && fields == r.fields && expanded == old(expanded) + {target.value} + Keys(r.order)
          && incomplete == (old(incomplete) || r.incomplete)
      decreases p.types.Keys - expanded, 0, 0
    {
      fields := [];
      var target := Target(p, c.home, n);
      if target == None {
        incomplete := true;
        return;
      }
      var k := target.value;
      if k in expanded { return; }
      expanded := expanded + {k};
      fields := ExpandLevel(p.types[k].body, MixinScope(p, k, n, c));
    }
  }
}
