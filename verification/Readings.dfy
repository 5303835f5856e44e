/** How the segments of a route are read, written out for every name. */
module Readings {
  import opened Routes
  import opened RouteLanguages
  import opened Resolution

  /** A name without braces. */
  predicate Braceless(name: string) { '{' !in name && '}' !in name }

  ghost predicate EndsInDots(name: string) { exists front :: name == front + "..." }

  function Braced(inner: string): string { "{" + inner + "}" }

  lemma BracedIsVar(inner: string)
    requires inner != ""
    ensures IsVarSegment(Braced(inner)) && Accepted([Braced(inner)])
  {
    var seg := Braced(inner);
    assert seg[0] == '{' && seg[|seg| - 1] == '}';
  }

  lemma BracedDots(inner: string)
    requires inner != ""
    ensures EndsRoute(Braced(inner)) <==> inner == "$" || EndsInDots(inner)
  {
    var seg := Braced(inner);
    assert seg[0] == '{' && seg[1..|seg| - 1] == inner;
    assert seg == "{$}" <==> inner == "$" by { assert "{$}" == Braced("$") && "{$}"[1..2] == "$"; }
    if HasSuffix(seg, "...}") {
      var n := |inner| - 3;
      assert seg[|seg| - 4..] == "...}" && seg[|seg| - 4..][..3] == "...";
      assert seg[0] == '{' && "...}"[0] == '.';
      assert inner[n..] == seg[|seg| - 4..][..3];
      assert inner == inner[..n] + "...";
    }
    if front :| inner == front + "..." {
      assert seg == "{" + front + "...}";
      assert seg[|seg| - 4..] == "...}";
    }
  }

  /** `{name}` reads as one part of a path. */
  lemma ReadsVariable(name: string)
    requires name != "" && Braceless(name) && name != "$" && !EndsInDots(name)
    ensures Read("{" + name + "}") == Wild && Accepted(["{" + name + "}"])
    ensures ShapeSegment("{" + name + "}") == "{}"
  {
    BracedIsVar(name);
    BracedDots(name);
    assert "{" + name + "}" == Braced(name);
    assert "{$}"[1..2] == "$" && Braced(name)[1..|name| + 1] == name;
  }

  /** `{name...}` reads as all parts that are left. */
  lemma ReadsRest(name: string)
    requires Braceless(name)
    ensures Read("{" + name + "...}") == Rest && Accepted(["{" + name + "...}"])
    ensures ShapeSegment("{" + name + "...}") == "{...}"
  {
    var inner, seg := name + "...", "{" + name + "...}";
    BracedIsVar(inner);
    BracedDots(inner);
    assert seg == Braced(inner) && |seg| >= 5;
    assert seg[|seg| - 4..] == "...}";
  }

  /** `{$}` reads as the end behind a trailing slash. */
  lemma ReadsEnd()
    ensures Read("{$}") == End && Accepted(["{$}"]) && ShapeSegment("{$}") == "{$}"
  {
    BracedIsVar("$");
    assert Braced("$") == "{$}";
  }

  /** A segment without braces reads as itself. */
  lemma ReadsLiteral(text: string)
    requires Braceless(text)
    ensures Read(text) == Literal(text) && Accepted([text]) && ShapeSegment(text) == text
  {
    assert "{$}"[0] == '{';
    if text != "" { assert text[0] in text; }
  }

  /** A segment with a brace that opens is accepted only as a whole variable. */
  lemma AcceptedExactly(seg: string)
    ensures Accepted([seg]) <==> '{' !in seg || exists inner :: inner != "" && seg == "{" + inner + "}"
  {
    assert [seg][0] == seg;
    if IsVarSegment(seg) {
      var inner := seg[1..|seg| - 1];
      assert seg == "{" + inner + "}";
    }
    if inner :| inner != "" && seg == "{" + inner + "}" { BracedIsVar(inner); }
  }

  /** Two routes that differ in the name of a variable conflict. */
  lemma NamesDoNotTell(front: seq<string>, a: string, b: string)
    requires a != "" && Braceless(a) && a != "$" && !EndsInDots(a)
    requires b != "" && Braceless(b) && b != "$" && !EndsInDots(b)
    ensures Conflicts(front + ["{" + a + "}"], front + ["{" + b + "}"])
  {
    var x, y := front + ["{" + a + "}"], front + ["{" + b + "}"];
    ReadsVariable(a);
    ReadsVariable(b);
    CompareRead("{" + a + "}", "{" + b + "}");
    assert x[..|x| - 1] == front && y[..|y| - 1] == front;
    FoldSelf(front);
  }

  lemma {:induction false} FoldSelf(segs: seq<string>)
    ensures Fold(segs, segs) == Equivalent
  {
    if segs != [] { FoldSelf(segs[..|segs| - 1]); }
  }
}
