/** The route checks of a project, and that a project they pass dispatches
    every path to one route. */
module Dispatch {
  import opened Routes
  import opened RouteLanguages
  import opened Resolution

  /** A method's registered route and its shape, and the package and service
      declaring it. */
  datatype Entry = Entry(verb: string, route: string, shape: string, pkg: string, service: string)

  predicate SameShape(a: Entry, b: Entry) { a.verb == b.verb && a.shape == b.shape }

  predicate SameService(a: Entry, b: Entry) { a.pkg == b.pkg && a.service == b.service }

  /** Two methods of one service with the same verb and route shape. */
  ghost predicate RepeatsInService(es: seq<Entry>, pkg: string, service: string) {
    exists i, j :: 0 <= i < j < |es| && InService(es[i], pkg, service) && InService(es[j], pkg, service) &&
        SameShape(es[i], es[j])
  }

  predicate InService(e: Entry, pkg: string, service: string) { e.pkg == pkg && e.service == service }

  /** Two methods of different services with the same verb and shape, the
      earlier one the first of that shape. */
  ghost predicate RepeatsAcross(es: seq<Entry>) { exists i, j :: 0 <= i < j < |es| && Repeats(es, i, j) }

  ghost predicate Repeats(es: seq<Entry>, i: nat, j: nat) requires i < |es| && j < |es| {
    SameShape(es[i], es[j]) && !SameService(es[i], es[j]) && forall k :: 0 <= k < i ==> !SameShape(es[k], es[j])
  }

  predicate Overlap(a: Entry, b: Entry) {
    a.verb == b.verb && a.shape != b.shape && Conflicts(Segments(a.route), Segments(b.route))
  }

  ghost predicate Overlapping(es: seq<Entry>) { exists i, j :: 0 <= j < i < |es| && Overlap(es[i], es[j]) }

  /** Reports a shape one service declares twice under one verb. */
  method CheckServiceMethods(es: seq<Entry>, pkg: string, service: string) returns (reported: bool)
    ensures reported <==> RepeatsInService(es, pkg, service)
  {
    reported := false;
    var seen: set<(string, string)> := {};
    for n := 0 to |es|
      invariant forall i :: 0 <= i < n && InService(es[i], pkg, service) ==> (es[i].verb, es[i].shape) in seen
      invariant forall x :: x in seen ==>
          exists i :: 0 <= i < n && InService(es[i], pkg, service) && x == (es[i].verb, es[i].shape)
      invariant reported <==> RepeatsInService(es[..n], pkg, service)
    {
      assert es[..n + 1] == es[..n] + [es[n]];
      if InService(es[n], pkg, service) {
        var key := (es[n].verb, es[n].shape);
        if key in seen {
          ghost var i :| 0 <= i < n && InService(es[i], pkg, service) && key == (es[i].verb, es[i].shape);
          assert es[..n + 1][i] == es[i] && es[..n + 1][n] == es[n] && SameShape(es[i], es[n]);
          reported := true;
        }
        seen := seen + {key};
      }
    }
    assert es[..|es|] == es;
  }

  /** Reports the pairs net/http refuses to register together, but for those
      of one service and one shape. */
  method CheckProjectPathCollision(es: seq<Entry>) returns (reported: bool)
    ensures reported <==> RepeatsAcross(es) || Overlapping(es)
  {
    var across := CheckShapes(es);
    var overlaps := CheckOverlaps(es);
    reported := across || overlaps;
  }

  /** The first entry of each verb and shape before n. */
  ghost predicate Firsts(es: seq<Entry>, n: nat, first: map<(string, string), nat>) requires n <= |es| {
    && (forall x :: x in first ==> first[x] < n && x == (es[first[x]].verb, es[first[x]].shape))
    && (forall i :: 0 <= i < n ==> (es[i].verb, es[i].shape) in first && first[(es[i].verb, es[i].shape)] <= i)
  }

  ghost predicate RepeatsUpTo(es: seq<Entry>, n: nat) requires n <= |es| {
    exists i, j :: 0 <= i < j < n && Repeats(es, i, j)
  }

  predicate IsFirst(es: seq<Entry>, i: nat, n: nat) requires i < n < |es| {
    SameShape(es[i], es[n]) && forall k :: 0 <= k < i ==> !SameShape(es[k], es[n])
  }

  lemma NewShape(es: seq<Entry>, n: nat)
    requires n < |es| && forall i :: 0 <= i < n ==> !SameShape(es[i], es[n])
    ensures RepeatsUpTo(es, n + 1) <==> RepeatsUpTo(es, n)
  {
    if RepeatsUpTo(es, n + 1) {
      var i, j :| 0 <= i < j < n + 1 && Repeats(es, i, j);
      assert j < n;
    }
    if RepeatsUpTo(es, n) {
      var i, j :| 0 <= i < j < n && Repeats(es, i, j);
      assert j < n + 1;
    }
  }

  lemma OldShape(es: seq<Entry>, i: nat, n: nat)
    requires i < n < |es| && IsFirst(es, i, n)
    ensures RepeatsUpTo(es, n + 1) <==> RepeatsUpTo(es, n) || !SameService(es[i], es[n])
  {
    if RepeatsUpTo(es, n + 1) {
      var k, j :| 0 <= k < j < n + 1 && Repeats(es, k, j);
      if j < n { assert RepeatsUpTo(es, n); } else { assert k == i; }
    }
    if RepeatsUpTo(es, n) {
      var k, j :| 0 <= k < j < n && Repeats(es, k, j);
      assert j < n + 1;
    }
    if !SameService(es[i], es[n]) { assert Repeats(es, i, n); }
  }

  method CheckShapes(es: seq<Entry>) returns (reported: bool)
    ensures reported <==> RepeatsAcross(es)
  {
    reported := false;
    var first: map<(string, string), nat> := map[];
    for n := 0 to |es|
      invariant Firsts(es, n, first)
      invariant reported <==> RepeatsUpTo(es, n)
    {
      var key := (es[n].verb, es[n].shape);
      if key !in first {
        NewShape(es, n);
        first := first[key := n];
      } else {
        OldShape(es, first[key], n);
        if !SameService(es[first[key]], es[n]) { reported := true; }
      }
    }
  }

  method CheckOverlaps(es: seq<Entry>) returns (reported: bool)
    ensures reported <==> Overlapping(es)
  {
    reported := false;
    for i := 0 to |es|
      invariant reported <==> exists x, y :: 0 <= y < x < i && Overlap(es[x], es[y])
    {
      var hit := OverlapsEarlier(es, i);
      reported := reported || hit;
    }
  }

  method OverlapsEarlier(es: seq<Entry>, i: nat) returns (reported: bool)
    requires i < |es|
    ensures reported <==> exists y :: 0 <= y < i && Overlap(es[i], es[y])
  {
    reported := false;
    for j := 0 to i
      invariant reported <==> exists y :: 0 <= y < j && Overlap(es[i], es[y])
    {
      if es[i].verb == es[j].verb && es[i].shape != es[j].shape {
        var conflict := PatternsConflict(es[i].route, es[j].route);
        reported := reported || conflict;
      }
    }
  }

  // ---- A project the checks pass ----

  /** The entry's shape is its route's, its route well-formed. */
  predicate WellRouted(e: Entry) {
    e.shape == Shape(e.route) && Accepted(Segments(e.route)) && WellFormedRoute(Segments(e.route))
  }

  ghost predicate Passes(es: seq<Entry>) {
    !RepeatsAcross(es) && !Overlapping(es) && forall e :: e in es ==> !RepeatsInService(es, e.pkg, e.service)
  }

  lemma {:induction false} FirstOfShape(es: seq<Entry>, j: nat, n: nat) returns (i: nat)
    requires j < |es| && n <= |es| && exists k :: 0 <= k < n && SameShape(es[k], es[j])
    ensures i < n && SameShape(es[i], es[j]) && forall k :: 0 <= k < i ==> !SameShape(es[k], es[j])
    decreases n
  {
    if exists k :: 0 <= k < n - 1 && SameShape(es[k], es[j]) { i := FirstOfShape(es, j, n - 1); } else { i := n - 1; }
  }

  /** Where the checks pass, no verb has a shape twice. */
  lemma ShapesDistinct(es: seq<Entry>, i: nat, j: nat)
    requires Passes(es) && i < j < |es|
    ensures !SameShape(es[i], es[j])
  {
    if SameShape(es[i], es[j]) {
      var f := FirstOfShape(es, j, j);
      if SameService(es[f], es[j]) {
        assert es[j] in es && InService(es[f], es[j].pkg, es[j].service) && InService(es[j], es[j].pkg, es[j].service);
        assert RepeatsInService(es, es[j].pkg, es[j].service);
      } else {
        assert Repeats(es, f, j);
      }
    }
  }

  lemma ReadShape(a: string, b: string)
    requires ('{' !in a || IsVarSegment(a)) && ('{' !in b || IsVarSegment(b))
    ensures Read(a) == Read(b) <==> ShapeSegment(a) == ShapeSegment(b)
  {
    assert '{' in "{$}" && '{' in "{...}" && '{' in "{}" by {
      assert "{$}"[0] == '{' && "{...}"[0] == '{' && "{}"[0] == '{';
    }
    if '{' !in a { assert a == "" || a[0] in a; }
    if '{' !in b { assert b == "" || b[0] in b; }
  }

  lemma {:induction false} RelateEquivalent(x: seq<Pattern>, y: seq<Pattern>)
    requires |x| == |y|
    ensures Relate(x, y) == Equivalent <==> x == y
  {
    if x != [] {
      RelateEquivalent(x[1..], y[1..]);
      assert x == [x[0]] + x[1..] && y == [y[0]] + y[1..];
    }
  }

  /** Routes have one shape exactly when they relate as equivalent. */
  lemma ShapeEquivalent(a: string, b: string)
    requires Accepted(Segments(a)) && Accepted(Segments(b)) && |Segments(a)| == |Segments(b)|
    ensures Shape(a) == Shape(b) <==> Fold(Segments(a), Segments(b)) == Equivalent
  {
    var x, y := Segments(a), Segments(b);
    ShapeSegmentsOf(a, b);
    FoldRelates(x, y);
    RelateEquivalent(ReadAll(x), ReadAll(y));
    forall i | 0 <= i < |x| ensures ReadAll(x)[i] == ReadAll(y)[i] <==> ShapeSegments(x)[i] == ShapeSegments(y)[i] {
      ReadShape(x[i], y[i]);
    }
  }

  function PatternsOf(e: Entry): seq<Pattern> { ReadAll(Segments(e.route)) }

  /** a matches only paths b matches, and fewer. */
  ghost predicate Narrower(a: Entry, b: Entry) {
    Within(PatternsOf(a), PatternsOf(b)) && !Within(PatternsOf(b), PatternsOf(a))
  }

  /** Where the checks pass, two routes of one verb and length that match a
      common path are ordered by the paths they match. */
  lemma Comparable(es: seq<Entry>, i: nat, j: nat, path: seq<string>)
    requires Passes(es) && i < |es| && j < |es| && i != j
    requires WellRouted(es[i]) && WellRouted(es[j]) && es[i].verb == es[j].verb
    requires |Segments(es[i].route)| == |Segments(es[j].route)|
    requires IsPath(path) && Matches(PatternsOf(es[i]), path) && Matches(PatternsOf(es[j]), path)
    ensures Narrower(es[i], es[j]) || Narrower(es[j], es[i])
  {
    var a, b := if i > j then es[i] else es[j], if i > j then es[j] else es[i];
    if i > j { ShapesDistinct(es, j, i); } else { ShapesDistinct(es, i, j); }
    assert !Overlap(a, b);
    FoldRelates(Segments(a.route), Segments(b.route));
    RelateMeans(PatternsOf(a), PatternsOf(b));
  }

  /** Two routes of a verb with as many segments that the paths they match do
      not rank: the same paths, or some in common with neither containing the
      other. */
  ghost predicate Unranked(a: Entry, b: Entry) {
    && a.verb == b.verb && |Segments(a.route)| == |Segments(b.route)|
    && var x, y := PatternsOf(a), PatternsOf(b);
    (Within(x, y) && Within(y, x)) || (Meet(x, y) && !Within(x, y) && !Within(y, x))
  }

  lemma SameShapeUnranked(a: Entry, b: Entry)
    requires WellRouted(a) && WellRouted(b) && SameShape(a, b)
    ensures Unranked(a, b)
  {
    ShapeSegmentsOf(a.route, b.route);
    assert |ShapeSegments(Segments(a.route))| == |ShapeSegments(Segments(b.route))|;
    ShapeEquivalent(a.route, b.route);
    ConflictExactly(Segments(a.route), Segments(b.route));
  }

  lemma OverlapUnranked(a: Entry, b: Entry)
    requires WellRouted(a) && WellRouted(b) && Overlap(a, b)
    ensures Unranked(a, b)
  {
    ConflictExactly(Segments(a.route), Segments(b.route));
  }

  lemma UnrankedReported(a: Entry, b: Entry)
    requires WellRouted(a) && WellRouted(b) && Unranked(a, b)
    ensures SameShape(a, b) || Overlap(a, b)
  {
    ConflictExactly(Segments(a.route), Segments(b.route));
  }

  lemma UnrankedFlip(a: Entry, b: Entry)
    requires Unranked(a, b)
    ensures Unranked(b, a)
  {
  }

  /** Whatever a check reports is a pair of unranked routes. */
  lemma ReportedUnranked(es: seq<Entry>) returns (i: nat, j: nat)
    requires !Passes(es) && forall e :: e in es ==> WellRouted(e)
    ensures i < j < |es| && Unranked(es[i], es[j])
  {
    if RepeatsAcross(es) {
      i, j :| 0 <= i < j < |es| && Repeats(es, i, j);
      SameShapeUnranked(es[i], es[j]);
    } else if Overlapping(es) {
      j, i :| 0 <= i < j < |es| && Overlap(es[j], es[i]);
      OverlapUnranked(es[j], es[i]);
      UnrankedFlip(es[j], es[i]);
    } else {
      var e :| e in es && RepeatsInService(es, e.pkg, e.service);
      i, j :| 0 <= i < j < |es| && InService(es[i], e.pkg, e.service) && InService(es[j], e.pkg, e.service) &&
              SameShape(es[i], es[j]);
      SameShapeUnranked(es[i], es[j]);
    }
  }

  /** The checks report exactly the projects with two unranked routes. */
  lemma PassesExactly(es: seq<Entry>)
    requires forall e :: e in es ==> WellRouted(e)
    ensures Passes(es) <==> forall i, j :: 0 <= i < j < |es| ==> !Unranked(es[i], es[j])
  {
    if Passes(es) {
      forall i, j | 0 <= i < j < |es| ensures !Unranked(es[i], es[j]) {
        if Unranked(es[i], es[j]) {
          ShapesDistinct(es, i, j);
          UnrankedFlip(es[i], es[j]);
          UnrankedReported(es[j], es[i]);
        }
      }
    } else {
      var i, j := ReportedUnranked(es);
    }
  }

  /** Routes of one segment count, or all. */
  datatype Sizes = Only(count: nat) | Any

  predicate Sized(e: Entry, sizes: Sizes) { sizes.Only? ==> |Segments(e.route)| == sizes.count }

  /** The entry serves a path: its verb, its length and its language fit. */
  predicate Serves(e: Entry, verb: string, sizes: Sizes, path: seq<string>) {
    e.verb == verb && Sized(e, sizes) && Matches(PatternsOf(e), path)
  }

  ghost predicate MostSpecific(es: seq<Entry>, n: nat, verb: string, sizes: Sizes, path: seq<string>, i: nat)
    requires n <= |es|
  {
    && i < n && Serves(es[i], verb, sizes, path)
    && forall j :: 0 <= j < n && j != i && Serves(es[j], verb, sizes, path) ==> Narrower(es[i], es[j])
  }

  lemma NarrowerTrans(a: Entry, b: Entry, c: Entry)
    requires Narrower(a, b) && Narrower(b, c)
    ensures Narrower(a, c)
  {
  }

  lemma NewMostSpecific(es: seq<Entry>, last: nat, verb: string, sizes: Sizes, path: seq<string>, i: nat)
    requires last < |es| && MostSpecific(es, last, verb, sizes, path, i)
    requires Serves(es[last], verb, sizes, path) && Narrower(es[last], es[i])
    ensures MostSpecific(es, last + 1, verb, sizes, path, last)
  {
    forall j | 0 <= j < last && Serves(es[j], verb, sizes, path) ensures Narrower(es[last], es[j]) {
      if j != i { NarrowerTrans(es[last], es[i], es[j]); }
    }
  }

  /** Any two entries that serve the path are ordered. */
  ghost predicate AllOrdered(es: seq<Entry>, verb: string, sizes: Sizes, path: seq<string>) {
    forall i, j | 0 <= i < |es| && 0 <= j < |es| && i != j &&
      Serves(es[i], verb, sizes, path) && Serves(es[j], verb, sizes, path) ::
      Narrower(es[i], es[j]) || Narrower(es[j], es[i])
  }

  lemma {:induction false} FindMostSpecific(es: seq<Entry>, n: nat, verb: string, sizes: Sizes,
                                            path: seq<string>)
    returns (i: nat)
    requires n <= |es| && AllOrdered(es, verb, sizes, path)
    requires exists k :: 0 <= k < n && Serves(es[k], verb, sizes, path)
    ensures MostSpecific(es, n, verb, sizes, path, i)
    decreases n
  {
    var last := n - 1;
    if exists k :: 0 <= k < last && Serves(es[k], verb, sizes, path) {
      i := FindMostSpecific(es, last, verb, sizes, path);
      if Serves(es[last], verb, sizes, path) && Narrower(es[last], es[i]) {
        NewMostSpecific(es, last, verb, sizes, path, i);
        i := last;
      }
    } else {
      i := last;
    }
  }

  ghost predicate AllWellRouted(es: seq<Entry>, verb: string, sizes: Sizes) {
    forall e :: e in es && e.verb == verb && Sized(e, sizes) ==> WellRouted(e)
  }

  /** No two routes of the verb overlap across lengths, one of them ending in
      `{name...}`. */
  ghost predicate NoneOverlooked(es: seq<Entry>, verb: string, sizes: Sizes) {
    forall a, b | a in es && b in es && a.verb == b.verb == verb && Sized(a, sizes) && Sized(b, sizes) ::
      !Overlooked(PatternsOf(a), PatternsOf(b))
  }

  /** A shorter route and a longer one that match a common path are ordered
      unless they are overlooked. */
  lemma ComparableLonger(a: Entry, b: Entry, path: seq<string>)
    requires WellRouted(a) && WellRouted(b) && |Segments(a.route)| < |Segments(b.route)|
    requires IsPath(path) && Matches(PatternsOf(a), path) && Matches(PatternsOf(b), path)
    ensures Overlooked(PatternsOf(a), PatternsOf(b)) <==> !(Narrower(a, b) || Narrower(b, a))
  {
    RelateLongerMeans(PatternsOf(a), PatternsOf(b));
  }

  lemma PassesOrdered(es: seq<Entry>, verb: string, sizes: Sizes, path: seq<string>)
    requires Passes(es) && IsPath(path) && AllWellRouted(es, verb, sizes) && NoneOverlooked(es, verb, sizes)
    ensures AllOrdered(es, verb, sizes, path)
  {
    forall i, j | 0 <= i < |es| && 0 <= j < |es| && i != j && Serves(es[i], verb, sizes, path) &&
        Serves(es[j], verb, sizes, path)
      ensures Narrower(es[i], es[j]) || Narrower(es[j], es[i])
    {
      var a, b := es[i], es[j];
      assert a in es && b in es;
      if |Segments(a.route)| == |Segments(b.route)| {
        Comparable(es, i, j, path);
      } else if |Segments(a.route)| < |Segments(b.route)| {
        ComparableLonger(a, b, path);
      } else {
        ComparableLonger(b, a, path);
      }
    }
  }

  ghost predicate Determined(es: seq<Entry>, verb: string, sizes: Sizes, path: seq<string>) {
    exists i :: MostSpecific(es, |es|, verb, sizes, path, i) &&
                forall j :: MostSpecific(es, |es|, verb, sizes, path, j) ==> j == i
  }

  lemma OrderedDetermined(es: seq<Entry>, verb: string, sizes: Sizes, path: seq<string>)
    requires AllOrdered(es, verb, sizes, path)
    requires exists k :: 0 <= k < |es| && Serves(es[k], verb, sizes, path)
    ensures Determined(es, verb, sizes, path)
  {
    var i := FindMostSpecific(es, |es|, verb, sizes, path);
  }

  /** In a project the route checks pass, every path some route of a verb and
      segment count matches has exactly one most specific such route. */
  lemma DispatchDetermined(es: seq<Entry>, verb: string, length: nat, path: seq<string>)
    requires Passes(es) && IsPath(path) && AllWellRouted(es, verb, Only(length))
    requires exists k :: 0 <= k < |es| && Serves(es[k], verb, Only(length), path)
    ensures Determined(es, verb, Only(length), path)
  {
    PassesOrdered(es, verb, Only(length), path);
    OrderedDetermined(es, verb, Only(length), path);
  }

  // ---- All lengths together ----

  /** Where besides no pair of routes is overlooked, so has every path some
      route of the verb matches, of whatever length. */
  lemma DispatchDeterminedOverall(es: seq<Entry>, verb: string, path: seq<string>)
    requires Passes(es) && IsPath(path) && AllWellRouted(es, verb, Any)
    requires NoneOverlooked(es, verb, Any)
    requires exists k :: 0 <= k < |es| && Serves(es[k], verb, Any, path)
    ensures Determined(es, verb, Any, path)
  {
    PassesOrdered(es, verb, Any, path);
    OrderedDetermined(es, verb, Any, path);
  }

  /** In a project the route checks pass, all routes of a verb that match a
      common path are ordered exactly when no pair is overlooked. */
  lemma OrderedExactly(es: seq<Entry>, verb: string)
    requires Passes(es) && AllWellRouted(es, verb, Any)
    ensures NoneOverlooked(es, verb, Any) <==>
      forall path :: IsPath(path) ==> AllOrdered(es, verb, Any, path)
  {
    if NoneOverlooked(es, verb, Any) {
      forall path | IsPath(path) ensures AllOrdered(es, verb, Any, path) {
        PassesOrdered(es, verb, Any, path);
      }
    } else {
      var a, b :| a in es && b in es && a.verb == b.verb == verb && Overlooked(PatternsOf(a), PatternsOf(b));
      var path := OverlookedUnordered(es, verb, a, b);
    }
  }

  lemma OverlookedUnordered(es: seq<Entry>, verb: string, a: Entry, b: Entry) returns (path: seq<string>)
    requires a in es && b in es && a.verb == b.verb == verb && WellRouted(a) && WellRouted(b)
    requires Overlooked(PatternsOf(a), PatternsOf(b))
    ensures IsPath(path) && !AllOrdered(es, verb, Any, path)
  {
    OverlookedExactly(PatternsOf(a), PatternsOf(b));
    path :| IsPath(path) && Matches(PatternsOf(a), path) && Matches(PatternsOf(b), path);
    ComparableLonger(a, b, path);
    var i :| 0 <= i < |es| && es[i] == a;
    var j :| 0 <= j < |es| && es[j] == b;
    assert Serves(es[i], verb, Any, path) && Serves(es[j], verb, Any, path);
  }
}
