/** Paths in a graph given by its edges. */
module Paths {

  ghost predicate IsPath<T(!new)>(g: iset<(T, T)>, path: seq<T>) {
    path != [] && forall i: nat {:trigger EdgeAt(g, path, i)} :: i < |path| - 1 ==> EdgeAt(g, path, i)
  }

  ghost predicate EdgeAt<T(!new)>(g: iset<(T, T)>, path: seq<T>, i: nat)
    requires i < |path| - 1
  {
    (path[i], path[i + 1]) in g
  }

  /** Reflexive and transitive reachability. */
  ghost predicate Leads<T(!new)>(g: iset<(T, T)>, a: T, b: T) {
    exists path :: IsPath(g, path) && path[0] == a && path[|path| - 1] == b
  }

  lemma LeadsSelf<T(!new)>(g: iset<(T, T)>, a: T)
    ensures Leads(g, a, a)
  {
    assert IsPath(g, [a]) && [a][0] == a;
  }

  lemma LeadsOn<T(!new)>(g: iset<(T, T)>, a: T, b: T, c: T)
    requires Leads(g, a, b) && (b, c) in g
    ensures Leads(g, a, c)
  {
    var path :| IsPath(g, path) && path[0] == a && path[|path| - 1] == b;
    var on := path + [c];
    forall i: nat | i < |on| - 1 ensures EdgeAt(g, on, i) {
      if i < |path| - 1 { assert EdgeAt(g, path, i); }
    }
    assert IsPath(g, on) && on[0] == a && on[|on| - 1] == c;
  }

  lemma LeadsUnder<T(!new)>(g: iset<(T, T)>, a: T, b: T, c: T)
    requires (a, b) in g && Leads(g, b, c)
    ensures Leads(g, a, c)
  {
    var path :| IsPath(g, path) && path[0] == b && path[|path| - 1] == c;
    var up := [a] + path;
    forall i: nat | i < |up| - 1 ensures EdgeAt(g, up, i) {
      if i > 0 { assert EdgeAt(g, path, i - 1); }
    }
    assert IsPath(g, up) && up[0] == a && up[|up| - 1] == c;
  }

  /** A path that leads elsewhere has a first edge. */
  lemma LeadsFirst<T(!new)>(g: iset<(T, T)>, a: T, b: T) returns (c: T)
    requires Leads(g, a, b) && a != b
    ensures (a, c) in g && Leads(g, c, b)
  {
    var path :| IsPath(g, path) && path[0] == a && path[|path| - 1] == b;
    c := path[1];
    assert EdgeAt(g, path, 0);
    var rest := path[1..];
    forall i: nat | i < |rest| - 1 ensures EdgeAt(g, rest, i) { assert EdgeAt(g, path, i + 1); }
    assert IsPath(g, rest) && rest[0] == c && rest[|rest| - 1] == b;
  }

  /** What holds at the start and along every edge holds at the end. */
  lemma Kept<T(!new)>(g: iset<(T, T)>, a: T, b: T, s: iset<T>)
    requires Leads(g, a, b) && a in s && forall x, y :: x in s && (x, y) in g ==> y in s
    ensures b in s
  {
    var path :| IsPath(g, path) && path[0] == a && path[|path| - 1] == b;
    KeptAlong(g, path, s, |path| - 1);
  }

  lemma {:induction false} KeptAlong<T(!new)>(g: iset<(T, T)>, path: seq<T>, s: iset<T>, i: nat)
    requires IsPath(g, path) && path[0] in s && i < |path| && forall x, y :: x in s && (x, y) in g ==> y in s
    ensures path[i] in s
  {
    if i > 0 {
      KeptAlong(g, path, s, i - 1);
      assert EdgeAt(g, path, i - 1);
    }
  }

  lemma LeadsWider<T(!new)>(g: iset<(T, T)>, h: iset<(T, T)>, a: T, b: T)
    requires Leads(g, a, b) && g <= h
    ensures Leads(h, a, b)
  {
    var path :| IsPath(g, path) && path[0] == a && path[|path| - 1] == b;
    forall i: nat | i < |path| - 1 ensures EdgeAt(h, path, i) { assert EdgeAt(g, path, i); }
    assert IsPath(h, path);
  }

  /** A path that leaves a set crosses its border. */
  lemma Exit<T(!new)>(g: iset<(T, T)>, a: T, b: T, s: iset<T>) returns (x: T, y: T)
    requires Leads(g, a, b) && a in s && b !in s
    ensures (x, y) in g && x in s && y !in s && Leads(g, a, x) && Leads(g, y, b)
  {
    var path :| IsPath(g, path) && path[0] == a && path[|path| - 1] == b;
    LeadsSelf(g, a);
    x, y := ExitAlong(g, path, s, a);
  }

  lemma {:induction false} ExitAlong<T(!new)>(g: iset<(T, T)>, path: seq<T>, s: iset<T>, a: T) returns (x: T, y: T)
    requires IsPath(g, path) && path[0] in s && path[|path| - 1] !in s && Leads(g, a, path[0])
    ensures (x, y) in g && x in s && y !in s && Leads(g, a, x) && Leads(g, y, path[|path| - 1])
    decreases |path|
  {
    assert EdgeAt(g, path, 0);
    var rest := path[1..];
    forall i: nat | i < |rest| - 1 ensures EdgeAt(g, rest, i) { assert EdgeAt(g, path, i + 1); }
    assert IsPath(g, rest) && rest[|rest| - 1] == path[|path| - 1];
    if path[1] in s {
      LeadsOn(g, a, path[0], path[1]);
      x, y := ExitAlong(g, rest, s, a);
    } else {
      x, y := path[0], path[1];
      assert rest[0] == y;
    }
  }
}
