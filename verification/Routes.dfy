/** Routes, their segments, and how two of them relate. */
module Routes {

  // ---- Segments of a route ----

  predicate HasSuffix(s: string, suffix: string) { |suffix| <= |s| && s[|s| - |suffix|..] == suffix }

  /** A segment in braces: `{name}`, `{name...}` or `{$}`. */
  predicate IsVarSegment(seg: string) { |seg| > 2 && seg[0] == '{' && seg[|seg| - 1] == '}' }

  /** `{name...}` or `{$}`, which nothing may follow. */
  predicate EndsRoute(seg: string) { |seg| > 2 && seg[0] == '{' && (seg == "{$}" || HasSuffix(seg, "...}")) }

  function Kept(s: string): seq<string> { if s == "" then [] else [s] }

  /** The segments of a text, read on from the start of one. */
  function SegmentsFrom(start: string, s: string): seq<string>
    decreases |s|
  {
    if s == "" then Kept(start)
    else if s[0] == '/' then Kept(start) + SegmentsFrom("", s[1..])
    else SegmentsFrom(start + [s[0]], s[1..])
  }

  /** What stands between the slashes of a text, empty pieces dropped. */
  function Segments(s: string): seq<string> { SegmentsFrom("", s) }

  function ShapeSegment(seg: string): string {
    if seg == "{$}" then seg
    else if IsVarSegment(seg) && HasSuffix(seg, "...}") then "{...}"
    else if IsVarSegment(seg) then "{}"
    else seg
  }

  function Join(segs: seq<string>): string {
    if segs == [] then "" else if |segs| == 1 then segs[0] else segs[0] + "/" + Join(segs[1..])
  }

  function ShapeSegments(segs: seq<string>): seq<string> {
    seq(|segs|, i requires 0 <= i < |segs| => ShapeSegment(segs[i]))
  }

  /** The route with its variables made anonymous. */
  function Shape(route: string): string { "/" + Join(ShapeSegments(Segments(route))) }

  // ---- Relations ----

  datatype Relation = Equivalent | MoreGeneral | MoreSpecific | Disjoint | Overlaps

  function Combine(r: Relation, s: Relation): Relation {
    if r == Equivalent then s
    else if r == Disjoint || s == Disjoint then Disjoint
    else if r == Overlaps || s == Overlaps then Overlaps
    else if s == Equivalent || s == r then r
    else Overlaps
  }

  function CompareSegments(a: string, b: string): Relation {
    var aMulti, bMulti := EndsRoute(a) && a != "{$}", EndsRoute(b) && b != "{$}";
    var aWild, bWild := IsVarSegment(a) && !EndsRoute(a), IsVarSegment(b) && !EndsRoute(b);
    if aMulti && bMulti then Equivalent
    else if aMulti then MoreGeneral
    else if bMulti then MoreSpecific
    else if aWild && bWild then Equivalent
    else if aWild then (if b == "{$}" then Disjoint else MoreGeneral)
    else if bWild then (if a == "{$}" then Disjoint else MoreSpecific)
    else if a == b then Equivalent
    else Disjoint
  }

  /** The relation of two lists of segments of one length, from the front. */
  function Fold(as_: seq<string>, bs: seq<string>): Relation
    requires |as_| == |bs|
  {
    if as_ == [] then Equivalent
    else Combine(Fold(as_[..|as_| - 1], bs[..|bs| - 1]), CompareSegments(as_[|as_| - 1], bs[|bs| - 1]))
  }

  predicate Conflicts(x: seq<string>, y: seq<string>) {
    |x| == |y| && (Fold(x, y) == Equivalent || Fold(x, y) == Overlaps)
  }

  /** Relates two lists of segments, giving up at the first that tells the
      routes apart. */
  method FoldSegments(x: seq<string>, y: seq<string>) returns (rel: Relation)
    requires |x| == |y|
    ensures rel == Fold(x, y)
  {
    rel := Equivalent;
    for i := 0 to |x|
      invariant rel == Fold(x[..i], y[..i])
    {
      assert x[..i + 1][..i] == x[..i] && y[..i + 1][..i] == y[..i];
      rel := Combine(rel, CompareSegments(x[i], y[i]));
      assert rel == Fold(x[..i + 1], y[..i + 1]);
      if rel == Disjoint {
        FoldStaysDisjoint(x, y, i + 1);
        return;
      }
    }
    assert x[..|x|] == x && y[..|y|] == y;
  }

  /** Whether routes of one length clash: as equivalent ones or as ones that
      overlap. */
  method PatternsConflict(a: string, b: string) returns (conflict: bool)
    ensures conflict <==> Conflicts(Segments(a), Segments(b))
  {
    var x, y := Segments(a), Segments(b);
    if |x| != |y| { return false; }
    var rel := FoldSegments(x, y);
    return rel == Equivalent || rel == Overlaps;
  }

  lemma {:induction false} FoldStaysDisjoint(x: seq<string>, y: seq<string>, n: nat)
    requires |x| == |y| && n <= |x| && Fold(x[..n], y[..n]) == Disjoint
    ensures Fold(x, y) == Disjoint
    decreases |x|
  {
    if n == |x| {
      assert x[..n] == x && y[..n] == y;
    } else {
      var last := |x| - 1;
      assert x[..last][..n] == x[..n] && y[..last][..n] == y[..n];
      FoldStaysDisjoint(x[..last], y[..last], n);
    }
  }
}
