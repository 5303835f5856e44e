/** The mixin checks of a body: duplicate embeds, cycles, and field names
    that reach the body twice. */
module Mixins {
  import opened Ast
  import opened Spelling

  /** Where a field name came from: the host's name or a mixin's, as written. */
  type Origin = seq<string>

  /** What a check has seen: the first origin of each field name, and whether
      it reported anything. */
  datatype Seen = Seen(from: map<string, Origin>, reported: bool)

  function SeeField(s: Seen, name: string, origin: Origin): Seen {
    if name !in s.from then s.(from := s.from[name := origin])
    else if s.from[name] == origin then s
    else s.(reported := true)
  }

  /** The fields of type k and of its nested mixins added to s; stack holds
      the types being expanded. */
  function CollectType(p: Project, k: Key, origin: Origin, s: Seen, stack: set<Key>): Seen
    decreases p.types.Keys - stack, 0
  {
    if k in stack then s.(reported := true)
    else if k !in p.types then s
    else CollectBody(p, k.pkg, p.types[k].body, origin, s, stack + {k})
  }

  function CollectBody(p: Project, home: string, body: seq<Member>, origin: Origin, s: Seen, stack: set<Key>): Seen
    decreases p.types.Keys - stack, |body| + 1
  {
    if body == [] then s else
      var last := |body| - 1;
      var s' := CollectBody(p, home, body[..last], origin, s, stack);
      match body[last]
      case Field(name, _) => SeeField(s', name, origin)
      case Mixin(n) =>
        if RefKey(home, n).Some? then CollectType(p, RefKey(home, n).value, origin, s', stack) else s'
  }

  /** One mixin of host: what it names, its arity, then its fields. */
  function ProcessMixin(p: Project, host: Key, n: NamedRef, s: Seen): Seen {
    var k := RefKey(host.pkg, n);
    if k == None then s
    else if k.value !in p.types then (if k.value in p.values then s.(reported := true) else s)
    else if |n.args| != |p.types[k.value].params| then s.(reported := true)
    else CollectType(p, k.value, n.parts, s, {host})
  }

  /** The Go name a mixin embeds under: its last segment. */
  function Leaf(n: NamedRef): string { if n.parts == [] then "" else n.parts[|n.parts| - 1] }

  /** The host's own fields, seen before any mixin. */
  function SeeOwn(host: Key, body: seq<Member>): map<string, Origin> {
    if body == [] then map[] else
      var last := |body| - 1;
      var own := SeeOwn(host, body[..last]);
      if body[last].Field? && body[last].name !in own then own[body[last].name := [host.name]] else own
  }

  datatype Check = Check(seen: Seen, leaves: set<string>)

  function CheckMembers(p: Project, host: Key, body: seq<Member>, start: Seen): Check {
    if body == [] then Check(start, {}) else
      var last := |body| - 1;
      var c := CheckMembers(p, host, body[..last], start);
      match body[last]
      case Field(_, _) => c
      case Mixin(n) =>
        if Leaf(n) in c.leaves then c.(seen := c.seen.(reported := true))
        else Check(ProcessMixin(p, host, n, c.seen), c.leaves + {Leaf(n)})
  }

  /** Whether the mixin checks of host's body report anything. */
  predicate Reports(p: Project, host: Key, body: seq<Member>) {
    CheckMembers(p, host, body, Seen(SeeOwn(host, body), false)).seen.reported
  }

  // ---- The check as it runs, over maps it updates ----

  class MixinCheck {
    const p: Project
    var seen: map<string, Origin>
    var visited: set<Key>
    var reported: bool

    constructor (p: Project)
      ensures this.p == p && seen == map[] && visited == {} && !reported
    {
      this.p := p;
      seen, visited, reported := map[], {}, false;
    }

    /** Adds the fields of type k and its nested mixins to seen. */
    method CollectMixinFields(k: Key, origin: Origin)
      modifies this
      ensures visited == old(visited)
      ensures Seen(seen, reported) == CollectType(p, k, origin, old(Seen(seen, reported)), old(visited))
      decreases p.types.Keys - visited
    {
      if k in visited {
        reported := true;
        return;
      }
      if k !in p.types { return; }
      visited := visited + {k};
      var body := p.types[k].body;
      for i := 0 to |body|
        invariant visited == old(visited) + {k}
        invariant Seen(seen, reported)
               == CollectBody(p, k.pkg, body[..i], origin, old(Seen(seen, reported)), old(visited) + {k})
      {
        assert body[..i + 1][..i] == body[..i];
        match body[i]
        case Field(name, _) =>
          if name !in seen { seen := seen[name := origin]; }
          else if seen[name] != origin { reported := true; }
        case Mixin(n) =>
          var next := RefKey(k.pkg, n);
          if next.Some? { CollectMixinFields(next.value, origin); }
      }
      assert body[..|body|] == body;
      visited := visited - {k};
    }

    method Process(host: Key, n: NamedRef)
      modifies this
      ensures Seen(seen, reported) == ProcessMixin(p, host, n, old(Seen(seen, reported)))
    {
      var k := RefKey(host.pkg, n);
      if k == None { return; }
      if k.value !in p.types {
        if k.value in p.values { reported := true; }
        return;
      }
      if |n.args| != |p.types[k.value].params| {
        reported := true;
        return;
      }
      visited := {host};
      CollectMixinFields(k.value, n.parts);
    }

    /** Checks one body's mixins. */
    method CheckOneTypeMixins(host: Key, body: seq<Member>)
      modifies this
      ensures reported <==> Reports(p, host, body)
    {
      seen, reported := map[], false;
      for i := 0 to |body|
        invariant seen == SeeOwn(host, body[..i]) && !reported
      {
        assert body[..i + 1][..i] == body[..i];
        if body[i].Field? && body[i].name !in seen { seen := seen[body[i].name := [host.name]]; }
      }
      assert body[..|body|] == body;
      var leaves: set<string> := {};
      ghost var start := Seen(SeeOwn(host, body), false);
      for i := 0 to |body|
        invariant Check(Seen(seen, reported), leaves) == CheckMembers(p, host, body[..i], start)
      {
        assert body[..i + 1][..i] == body[..i];
        if body[i].Mixin? {
          var n := body[i].ref;
          if Leaf(n) in leaves {
            reported := true;
          } else {
            leaves := leaves + {Leaf(n)};
            Process(host, n);
          }
        }
      }
    }
  }
}
