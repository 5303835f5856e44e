/** The paths a route matches, and that the folded relation of two routes is
    the relation of their path languages. */
module RouteLanguages {
  import opened Routes

  /** What a segment matches: one text, any one part, all parts that are left,
      or the empty part behind a trailing slash. */
  datatype Pattern = Literal(text: string) | Wild | Rest | End

  function Read(seg: string): Pattern {
    if seg == "{$}" then End
    else if EndsRoute(seg) then Rest
    else if IsVarSegment(seg) then Wild
    else Literal(seg)
  }

  function ReadAll(segs: seq<string>): seq<Pattern> { seq(|segs|, i requires 0 <= i < |segs| => Read(segs[i])) }

  function Compare(a: Pattern, b: Pattern): Relation {
    if a.Rest? && b.Rest? then Equivalent
    else if a.Rest? then MoreGeneral
    else if b.Rest? then MoreSpecific
    else if a.Wild? && b.Wild? then Equivalent
    else if a.Wild? then (if b.End? then Disjoint else MoreGeneral)
    else if b.Wild? then (if a.End? then Disjoint else MoreSpecific)
    else if a == b then Equivalent
    else Disjoint
  }

  lemma CompareRead(a: string, b: string)
    ensures CompareSegments(a, b) == Compare(Read(a), Read(b))
  {
  }

  /** The relation of two lists of patterns, from the back. */
  function Relate(x: seq<Pattern>, y: seq<Pattern>): Relation
    requires |x| == |y|
  {
    if x == [] then Equivalent else Combine(Compare(x[0], y[0]), Relate(x[1..], y[1..]))
  }

  lemma CombineAssociative(r: Relation, s: Relation, t: Relation)
    ensures Combine(Combine(r, s), t) == Combine(r, Combine(s, t))
  {
  }

  lemma {:induction false} RelateLast(x: seq<Pattern>, y: seq<Pattern>)
    requires |x| == |y| && x != []
    ensures var last := |x| - 1; Relate(x, y) == Combine(Relate(x[..last], y[..last]), Compare(x[last], y[last]))
    decreases |x|
  {
    var last := |x| - 1;
    if last > 0 {
      RelateLast(x[1..], y[1..]);
      assert x[1..][..last - 1] == x[..last][1..] && y[1..][..last - 1] == y[..last][1..];
      CombineAssociative(Compare(x[0], y[0]), Relate(x[..last][1..], y[..last][1..]), Compare(x[last], y[last]));
    }
  }

  /** Folding from the front and relating from the back agree. */
  lemma {:induction false} FoldRelates(as_: seq<string>, bs: seq<string>)
    requires |as_| == |bs|
    ensures Fold(as_, bs) == Relate(ReadAll(as_), ReadAll(bs))
  {
    if as_ != [] {
      var last := |as_| - 1;
      FoldRelates(as_[..last], bs[..last]);
      assert ReadAll(as_)[..last] == ReadAll(as_[..last]) && ReadAll(bs)[..last] == ReadAll(bs[..last]);
      RelateLast(ReadAll(as_), ReadAll(bs));
      CompareRead(as_[last], bs[last]);
    }
  }

  // ---- The language of a route ----

  /** A request path, cut at its slashes: no part holds a slash, and only the
      last may be empty, after a trailing one. */
  predicate IsPath(path: seq<string>) {
    && (forall i :: 0 <= i < |path| ==> '/' !in path[i])
    && (forall i :: 0 <= i < |path| - 1 ==> path[i] != "")
  }

  predicate MatchesPart(a: Pattern, part: string) {
    match a
    case Literal(text) => part == text
    case Wild => part != ""
    case Rest => true
    case End => part == ""
  }

  predicate Matches(x: seq<Pattern>, path: seq<string>) {
    if x == [] then path == []
    else if path == [] then false
    else if x[0].Rest? then true
    else if x[0].End? then path == [""]
    else MatchesPart(x[0], path[0]) && Matches(x[1..], path[1..])
  }

  /** Wildcards that end a route stand last, and literals are segments. */
  predicate WellFormed(x: seq<Pattern>) {
    && (forall i :: 0 <= i < |x| - 1 ==> !x[i].Rest? && !x[i].End?)
    && (forall i :: 0 <= i < |x| && x[i].Literal? ==> x[i].text != "" && '/' !in x[i].text)
  }

  ghost predicate Within(x: seq<Pattern>, y: seq<Pattern>) {
    forall path :: IsPath(path) && Matches(x, path) ==> Matches(y, path)
  }

  ghost predicate Meet(x: seq<Pattern>, y: seq<Pattern>) {
    exists path :: IsPath(path) && Matches(x, path) && Matches(y, path)
  }

  /** The languages of x and y relate as r says. */
  ghost predicate Means(r: Relation, x: seq<Pattern>, y: seq<Pattern>) {
    match r
    case Equivalent => Within(x, y) && Within(y, x)
    case MoreGeneral => Within(y, x) && !Within(x, y)
    case MoreSpecific => Within(x, y) && !Within(y, x)
    case Disjoint => !Meet(x, y)
    case Overlaps => Meet(x, y) && !Within(x, y) && !Within(y, x)
  }

  // ---- Witnesses ----

  function PartOf(a: Pattern): string {
    match a
    case Literal(text) => text
    case Wild => "x"
    case Rest => "x"
    case End => ""
  }

  function PathOf(x: seq<Pattern>): seq<string> { seq(|x|, i requires 0 <= i < |x| => PartOf(x[i])) }

  /** Every well-formed route matches a path. */
  lemma {:induction false} PathOfMatches(x: seq<Pattern>)
    requires WellFormed(x)
    ensures IsPath(PathOf(x)) && Matches(x, PathOf(x))
  {
    if x != [] {
      PathOfMatches(x[1..]);
      assert PathOf(x)[1..] == PathOf(x[1..]);
      if x[0].End? { assert PathOf(x) == [""]; }
    }
  }

  /** A text other than the one given, and not empty. */
  function Other(text: string): string { text + "x" }

  lemma OtherDiffers(text: string)
    requires '/' !in text
    ensures Other(text) != text && Other(text) != "" && '/' !in Other(text)
  {
    assert |Other(text)| == |text| + 1;
  }

  // ---- One segment ----

  lemma MatchesOne(a: Pattern, path: seq<string>)
    ensures Matches([a], path) <==>
      if a.Rest? then path != [] else |path| == 1 && MatchesPart(a, path[0])
  {
    if |path| == 1 { assert path == [path[0]] && path[1..] == []; }
  }

  /** A single segment contains another or differs from it by a path. */
  lemma OneWithin(a: Pattern, b: Pattern, path: seq<string>)
    requires IsPath(path) && Matches([a], path) && !Matches([b], path)
    ensures !Within([a], [b])
  {
  }

  lemma SingleMeans(a: Pattern, b: Pattern)
    requires WellFormed([a]) && WellFormed([b])
    ensures Means(Compare(a, b), [a], [b])
  {
    forall path
      ensures Matches([a], path) <==> (if a.Rest? then path != [] else |path| == 1 && MatchesPart(a, path[0]))
    {
      MatchesOne(a, path);
    }
    forall path
      ensures Matches([b], path) <==> (if b.Rest? then path != [] else |path| == 1 && MatchesPart(b, path[0]))
    {
      MatchesOne(b, path);
    }
    if a.Rest? && !b.Rest? { OneWithin(a, b, ["x", "x"]); }
    if b.Rest? && !a.Rest? { OneWithin(b, a, ["x", "x"]); }
    assert [a][0] == a && [b][0] == b;
    if a.Wild? && b.Literal? {
      OtherDiffers(b.text);
      OneWithin(a, b, [Other(b.text)]);
    }
    if b.Wild? && a.Literal? {
      OtherDiffers(a.text);
      OneWithin(b, a, [Other(a.text)]);
    }
  }

  // ---- A segment in front ----

  lemma PathTail(path: seq<string>)
    requires |path| > 1
    ensures IsPath(path) <==> path[0] != "" && '/' !in path[0] && IsPath(path[1..])
  {
    var rest := path[1..];
    if path[0] != "" && '/' !in path[0] && IsPath(rest) {
      forall i | 0 <= i < |path| ensures '/' !in path[i] && (i < |path| - 1 ==> path[i] != "") {
        if i > 0 { assert path[i] == rest[i - 1]; }
      }
    }
    if IsPath(path) {
      forall i | 0 <= i < |rest| ensures '/' !in rest[i] && (i < |rest| - 1 ==> rest[i] != "") {
        assert rest[i] == path[i + 1];
      }
    }
  }

  /** What a one-part pattern in front of a route matches. */
  lemma MatchesCons(a: Pattern, x: seq<Pattern>, path: seq<string>)
    requires (a.Literal? || a.Wild?) && x != []
    ensures Matches([a] + x, path) <==> |path| > 1 && MatchesPart(a, path[0]) && Matches(x, path[1..])
  {
    assert ([a] + x)[1..] == x;
  }

  lemma WithinCons(a: Pattern, x: seq<Pattern>, b: Pattern, y: seq<Pattern>)
    requires (a.Literal? || a.Wild?) && (b.Literal? || b.Wild?) && x != [] && y != []
    requires Within(x, y) && (a == b || b.Wild?)
    ensures Within([a] + x, [b] + y)
  {
    forall path | IsPath(path) && Matches([a] + x, path) ensures Matches([b] + y, path) {
      MatchesCons(a, x, path);
      MatchesCons(b, y, path);
      PathTail(path);
    }
  }

  /** A path of one route, behind a part both fronts match. */
  lemma FrontPath(a: Pattern, x: seq<Pattern>, part: string, rest: seq<string>)
    requires (a.Literal? || a.Wild?) && x != [] && part != "" && '/' !in part && MatchesPart(a, part) && IsPath(rest)
    ensures rest != [] ==> IsPath([part] + rest)
    ensures Matches([a] + x, [part] + rest) <==> Matches(x, rest)
  {
    MatchesCons(a, x, [part] + rest);
    assert ([part] + rest)[1..] == rest;
    if rest != [] { PathTail([part] + rest); }
  }

  lemma NotWithinCons(a: Pattern, x: seq<Pattern>, b: Pattern, y: seq<Pattern>, part: string)
    requires (a.Literal? || a.Wild?) && (b.Literal? || b.Wild?) && x != [] && y != []
    requires part != "" && '/' !in part && MatchesPart(a, part)
    requires if MatchesPart(b, part) then !Within(x, y) else WellFormed(x)
    ensures !Within([a] + x, [b] + y)
  {
    var rest;
    if MatchesPart(b, part) {
      rest :| IsPath(rest) && Matches(x, rest) && !Matches(y, rest);
      FrontPath(b, y, part, rest);
    } else {
      PathOfMatches(x);
      rest := PathOf(x);
      MatchesCons(b, y, [part] + rest);
    }
    FrontPath(a, x, part, rest);
    assert rest != [];
  }

  lemma MeetCons(a: Pattern, x: seq<Pattern>, b: Pattern, y: seq<Pattern>, part: string)
    requires (a.Literal? || a.Wild?) && (b.Literal? || b.Wild?) && x != [] && y != []
    requires part != "" && '/' !in part && MatchesPart(a, part) && MatchesPart(b, part)
    ensures Meet([a] + x, [b] + y) <==> Meet(x, y)
  {
    if Meet(x, y) {
      var rest :| IsPath(rest) && Matches(x, rest) && Matches(y, rest);
      FrontPath(a, x, part, rest);
      FrontPath(b, y, part, rest);
      assert rest != [];
    }
    if Meet([a] + x, [b] + y) {
      var path :| IsPath(path) && Matches([a] + x, path) && Matches([b] + y, path);
      MatchesCons(a, x, path);
      MatchesCons(b, y, path);
      PathTail(path);
    }
  }

  lemma MeetSelf(x: seq<Pattern>, y: seq<Pattern>)
    requires WellFormed(x) && Within(x, y)
    ensures Meet(x, y) && Meet(y, x)
  {
    PathOfMatches(x);
  }

  predicate OnePart(a: Pattern) { a.Wild? || (a.Literal? && a.text != "" && '/' !in a.text) }

  /** The same part in front of two routes. */
  lemma SameFront(a: Pattern, x: seq<Pattern>, y: seq<Pattern>, s: Relation)
    requires OnePart(a) && x != [] && y != [] && Means(s, x, y)
    ensures Means(s, [a] + x, [a] + y)
  {
    MeetCons(a, x, a, y, PartOf(a));
    if Within(x, y) { WithinCons(a, x, a, y); } else { NotWithinCons(a, x, a, y, PartOf(a)); }
    if Within(y, x) { WithinCons(a, y, a, x); } else { NotWithinCons(a, y, a, x, PartOf(a)); }
  }

  /** A wildcard in front of one route and a literal in front of the other. */
  lemma WildFront(text: string, x: seq<Pattern>, y: seq<Pattern>, s: Relation)
    requires OnePart(Literal(text)) && x != [] && y != [] && WellFormed(x) && WellFormed(y) && Means(s, x, y)
    ensures Means(Combine(MoreGeneral, s), [Wild] + x, [Literal(text)] + y)
  {
    var b := Literal(text);
    MeetCons(Wild, x, b, y, text);
    OtherDiffers(text);
    NotWithinCons(Wild, x, b, y, Other(text));
    if Within(y, x) { WithinCons(b, y, Wild, x); } else { NotWithinCons(b, y, Wild, x, text); }
    if Within(x, y) { MeetSelf(x, y); }
    if Within(y, x) { MeetSelf(y, x); }
  }

  function Flip(r: Relation): Relation {
    match r
    case MoreGeneral => MoreSpecific
    case MoreSpecific => MoreGeneral
    case _ => r
  }

  lemma MeansFlip(r: Relation, x: seq<Pattern>, y: seq<Pattern>)
    ensures Means(r, x, y) <==> Means(Flip(r), y, x)
  {
  }

  lemma FrontMeans(a: Pattern, x: seq<Pattern>, b: Pattern, y: seq<Pattern>, s: Relation)
    requires OnePart(a) && OnePart(b) && x != [] && y != [] && WellFormed(x) && WellFormed(y) && Means(s, x, y)
    ensures Means(Combine(Compare(a, b), s), [a] + x, [b] + y)
  {
    if a == b {
      SameFront(a, x, y, s);
    } else if a.Wild? {
      WildFront(b.text, x, y, s);
    } else if b.Wild? {
      MeansFlip(s, x, y);
      WildFront(a.text, y, x, Flip(s));
      MeansFlip(Combine(MoreGeneral, Flip(s)), [b] + y, [a] + x);
    } else {
      forall path ensures !(Matches([a] + x, path) && Matches([b] + y, path)) {
        MatchesCons(a, x, path);
        MatchesCons(b, y, path);
      }
    }
  }

  /** The relation of two well-formed routes of one length is the relation of
      their path languages. */
  lemma {:induction false} RelateMeans(x: seq<Pattern>, y: seq<Pattern>)
    requires |x| == |y| && WellFormed(x) && WellFormed(y)
    ensures Means(Relate(x, y), x, y)
  {
    if x == [] {
    } else if |x| == 1 {
      assert x == [x[0]] && y == [y[0]];
      SingleMeans(x[0], y[0]);
      assert Relate(x[1..], y[1..]) == Equivalent;
    } else {
      RelateMeans(x[1..], y[1..]);
      assert OnePart(x[0]) && OnePart(y[0]);
      FrontMeans(x[0], x[1..], y[0], y[1..], Relate(x[1..], y[1..]));
      assert x == [x[0]] + x[1..] && y == [y[0]] + y[1..];
    }
  }

  // ---- Routes as written ----

  predicate WellFormedRoute(segs: seq<string>) { WellFormed(ReadAll(segs)) }

  /** Patterns of one length conflict exactly when they match the same paths,
      or share a path while neither matches all the other does. */
  lemma ConflictExactly(x: seq<string>, y: seq<string>)
    requires |x| == |y| && WellFormedRoute(x) && WellFormedRoute(y)
    ensures var a, b := ReadAll(x), ReadAll(y);
      Conflicts(x, y) <==> (Within(a, b) && Within(b, a)) || (Meet(a, b) && !Within(a, b) && !Within(b, a))
  {
    var a, b := ReadAll(x), ReadAll(y);
    FoldRelates(x, y);
    RelateMeans(a, b);
    if Within(a, b) { MeetSelf(a, b); }
  }

  // ---- Routes of different lengths ----

  predicate EndsInRest(x: seq<Pattern>) { x != [] && x[|x| - 1].Rest? }

  /** The relation of a route to a longer one: what a `{name...}` at its end
      leaves unread is more general than any continuation. */
  function RelateLonger(x: seq<Pattern>, y: seq<Pattern>): Relation
    requires |x| < |y|
  {
    if EndsInRest(x) then Combine(Relate(x[..|x| - 1], y[..|x| - 1]), MoreGeneral) else Disjoint
  }

  /** A path of a route is at least as long as the route, and no longer unless
      the route ends in `{name...}`. */
  lemma {:induction false} MatchLength(x: seq<Pattern>, path: seq<string>)
    requires WellFormed(x) && Matches(x, path)
    ensures |path| >= |x| && (!EndsInRest(x) ==> |path| == |x|)
  {
    if x != [] && !x[0].Rest? && !x[0].End? { MatchLength(x[1..], path[1..]); }
  }

  lemma RestMeans(y: seq<Pattern>)
    requires WellFormed(y) && |y| > 1
    ensures Means(MoreGeneral, [Rest], y)
  {
    forall path | Matches(y, path) ensures Matches([Rest], path) && |path| > 1 { MatchLength(y, path); }
    assert IsPath(["x"]) && Matches([Rest], ["x"]);
  }

  lemma LongerDisjoint(x: seq<Pattern>, y: seq<Pattern>)
    requires |x| < |y| && WellFormed(x) && WellFormed(y) && !EndsInRest(x)
    ensures Means(Disjoint, x, y)
  {
    forall path | Matches(x, path) ensures !Matches(y, path) {
      MatchLength(x, path);
      if Matches(y, path) { MatchLength(y, path); }
    }
  }

  lemma LongerFront(x: seq<Pattern>, y: seq<Pattern>)
    requires 1 < |x| < |y| && EndsInRest(x)
    ensures RelateLonger(x, y) == Combine(Compare(x[0], y[0]), RelateLonger(x[1..], y[1..]))
  {
    var last := |x| - 1;
    var u, v := x[..last], y[..last];
    assert x[1..][..last - 1] == u[1..] && y[1..][..last - 1] == v[1..];
    CombineAssociative(Compare(x[0], y[0]), Relate(u[1..], v[1..]), MoreGeneral);
  }

  /** The relation of a route to a longer one is the relation of their path
      languages. */
  lemma {:induction false} RelateLongerMeans(x: seq<Pattern>, y: seq<Pattern>)
    requires |x| < |y| && WellFormed(x) && WellFormed(y)
    ensures Means(RelateLonger(x, y), x, y)
  {
    if !EndsInRest(x) {
      LongerDisjoint(x, y);
    } else if |x| == 1 {
      assert x == [Rest];
      RestMeans(y);
    } else {
      RelateLongerMeans(x[1..], y[1..]);
      LongerFront(x, y);
      assert OnePart(x[0]) && OnePart(y[0]);
      FrontMeans(x[0], x[1..], y[0], y[1..], RelateLonger(x[1..], y[1..]));
      assert x == [x[0]] + x[1..] && y == [y[0]] + y[1..];
    }
  }

  /** x ends in `{name...}`, and what comes before is narrower than y somewhere
      and shares a path with it. */
  predicate Overlooked(x: seq<Pattern>, y: seq<Pattern>) {
    && |x| < |y| && EndsInRest(x)
    && var r := Relate(x[..|x| - 1], y[..|x| - 1]); r == MoreSpecific || r == Overlaps
  }

  /** Routes of different lengths share a path with neither matching all the
      other does exactly when the shorter is so overlooked. */
  lemma OverlookedExactly(x: seq<Pattern>, y: seq<Pattern>)
    requires |x| < |y| && WellFormed(x) && WellFormed(y)
    ensures Overlooked(x, y) <==> Meet(x, y) && !Within(x, y) && !Within(y, x)
  {
    RelateLongerMeans(x, y);
    if Within(y, x) { MeetSelf(y, x); }
  }

  /** `/a/{rest...}` and `/{x}/b/c` for any names: not reported, and yet each
      matches a path that the other does not, and both match a third. */
  lemma OverlookedPair(a: string, b: string, c: string)
    requires OnePart(Literal(a)) && OnePart(Literal(b)) && OnePart(Literal(c))
    ensures var x, y := [Literal(a), Rest], [Wild, Literal(b), Literal(c)];
      Overlooked(x, y) && Meet(x, y) && !Within(x, y) && !Within(y, x)
  {
    var x, y := [Literal(a), Rest], [Wild, Literal(b), Literal(c)];
    assert x[..1] == [Literal(a)] && y[..1] == [Wild];
    assert Relate([Literal(a)][1..], [Wild][1..]) == Equivalent;
    OverlookedExactly(x, y);
  }
}
