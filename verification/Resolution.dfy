/** A method's absolute route, joined of its parts, and the shape of a route. */
module Resolution {
  import opened Routes

  // ---- Segments of joined texts ----

  /** A segment holds a character and no slash. */
  predicate Clean(segs: seq<string>) { forall i :: 0 <= i < |segs| ==> segs[i] != "" && '/' !in segs[i] }

  lemma {:induction false} SegmentsJoin(start: string, a: string, b: string)
    ensures SegmentsFrom(start, a + "/" + b) == SegmentsFrom(start, a) + SegmentsFrom("", b)
    decreases |a|
  {
    if a == "" {
      assert a + "/" + b == "/" + b && ("/" + b)[1..] == b;
    } else {
      assert (a + "/" + b)[1..] == a[1..] + "/" + b;
      if a[0] == '/' {
        SegmentsJoin("", a[1..], b);
        assert Kept(start) + (SegmentsFrom("", a[1..]) + SegmentsFrom("", b))
            == Kept(start) + SegmentsFrom("", a[1..]) + SegmentsFrom("", b);
      } else {
        SegmentsJoin(start + [a[0]], a[1..], b);
      }
    }
  }

  lemma {:induction false} SegmentsClean(start: string, s: string)
    requires '/' !in start
    ensures Clean(SegmentsFrom(start, s))
    decreases |s|
  {
    if s != "" {
      if s[0] == '/' { SegmentsClean("", s[1..]); } else { SegmentsClean(start + [s[0]], s[1..]); }
    }
  }

  /** A text without slashes is one segment. */
  lemma {:induction false} SegmentsOne(start: string, s: string)
    requires '/' !in s
    ensures SegmentsFrom(start, s) == Kept(start + s)
    decreases |s|
  {
    if s == "" {
      assert start + s == start;
    } else {
      SegmentsOne(start + [s[0]], s[1..]);
      assert start + [s[0]] + s[1..] == start + s;
    }
  }

  /** Joining segments and cutting them again gives them back. */
  lemma {:induction false} SegmentsOfJoin(segs: seq<string>)
    requires Clean(segs)
    ensures Segments(Join(segs)) == segs
  {
    if |segs| == 1 {
      SegmentsOne("", segs[0]);
      assert "" + segs[0] == segs[0] && segs == [segs[0]];
    } else if |segs| > 1 {
      SegmentsJoin("", segs[0], Join(segs[1..]));
      SegmentsOne("", segs[0]);
      assert "" + segs[0] == segs[0];
      SegmentsOfJoin(segs[1..]);
      assert [segs[0]] + segs[1..] == segs;
    }
  }

  lemma SegmentsSlash(s: string)
    ensures Segments("/" + s) == Segments(s)
  {
    assert ("/" + s)[1..] == s;
  }

  // ---- Joining the parts of a route ----

  /** Two slashes in a row. */
  predicate Doubled(s: string) { exists i :: 0 <= i < |s| - 1 && s[i] == '/' && s[i + 1] == '/' }

  /** Every `//` replaced by `/`, from the left. */
  function ReplaceAll(s: string): string {
    if |s| < 2 then s
    else if s[0] == '/' && s[1] == '/' then "/" + ReplaceAll(s[2..])
    else [s[0]] + ReplaceAll(s[1..])
  }

  lemma {:induction false} ReplaceKeeps(start: string, s: string)
    ensures SegmentsFrom(start, ReplaceAll(s)) == SegmentsFrom(start, s)
    decreases |s|
  {
    if |s| >= 2 {
      var r := ReplaceAll(s);
      if s[0] == '/' && s[1] == '/' {
        ReplaceKeeps("", s[2..]);
        assert r[1..] == ReplaceAll(s[2..]) && s[1..][1..] == s[2..];
      } else {
        assert r[1..] == ReplaceAll(s[1..]);
        ReplaceKeeps(if s[0] == '/' then "" else start + [s[0]], s[1..]);
      }
    }
  }

  lemma {:induction false} ReplaceShrinks(s: string)
    ensures |ReplaceAll(s)| <= |s| && (Doubled(s) ==> |ReplaceAll(s)| < |s|)
    decreases |s|
  {
    if |s| >= 2 {
      if s[0] == '/' && s[1] == '/' {
        ReplaceShrinks(s[2..]);
      } else {
        ReplaceShrinks(s[1..]);
        if Doubled(s) {
          var i :| 0 <= i < |s| - 1 && s[i] == '/' && s[i + 1] == '/';
          assert i > 0 && s[1..][i - 1] == '/' && s[1..][i] == '/';
        }
      }
    }
  }

  /** Segments of the parts joined with slashes, empty parts left out. */
  lemma JoinedSegments(base: string, prefix: string, path: string)
    ensures Segments(Join(Kept(base) + Kept(prefix) + [path])) == Segments(base) + Segments(prefix) + Segments(path)
  {
    var parts := Kept(base) + Kept(prefix) + [path];
    SegmentsJoin("", prefix, path);
    if base == "" && prefix == "" {
      assert parts == [path];
    } else if base == "" {
      assert parts == [prefix, path] && parts[1..] == [path];
      assert Join(parts) == prefix + "/" + path;
    } else if prefix == "" {
      assert parts == [base, path] && parts[1..] == [path];
      assert Join(parts) == base + "/" + path;
      SegmentsJoin("", base, path);
    } else {
      assert parts == [base, prefix, path] && parts[1..] == [prefix, path] && parts[1..][1..] == [path];
      assert Join(parts[1..]) == prefix + "/" + Join(parts[1..][1..]);
      assert Join(parts) == base + "/" + (prefix + "/" + path);
      SegmentsJoin("", base, prefix + "/" + path);
    }
  }

  /** An absolute route without empty segments or a trailing slash. */
  predicate Normal(route: string) {
    route != "" && route[0] == '/' && !Doubled(route) && (|route| > 1 ==> route[|route| - 1] != '/')
  }

  function TrimRight(s: string): string {
    if s != "" && s[|s| - 1] == '/' then TrimRight(s[..|s| - 1]) else s
  }

  /** One absolute route of the three parts. */
  method Resolve(base: string, prefix: string, path: string) returns (joined: string)
    ensures Normal(joined) && Segments(joined) == Segments(base) + Segments(prefix) + Segments(path)
  {
    joined := Join(Kept(base) + Kept(prefix) + [path]);
    JoinedSegments(base, prefix, path);
    ghost var segs := Segments(joined);
    while Doubled(joined)
      invariant Segments(joined) == segs
      decreases |joined|
    {
      ReplaceKeeps("", joined);
      ReplaceShrinks(joined);
      joined := ReplaceAll(joined);
    }
    if joined == "" || joined[0] != '/' {
      SegmentsSlash(joined);
      RootedSingle(joined);
      joined := "/" + joined;
    }
    if |joined| > 1 {
      if joined[|joined| - 1] == '/' { TrimKeeps(joined); }
      joined := TrimRight(joined);
    }
  }

  lemma RootedSingle(s: string)
    requires !Doubled(s) && (s == "" || s[0] != '/')
    ensures !Doubled("/" + s)
  {
    var r := "/" + s;
    forall i | 0 <= i < |r| - 1 ensures !(r[i] == '/' && r[i + 1] == '/') {
      if i > 0 { assert r[i] == s[i - 1] && r[i + 1] == s[i]; }
    }
  }

  lemma TrimKeeps(s: string)
    requires |s| > 1 && s[|s| - 1] == '/' && !Doubled(s)
    ensures Segments(s[..|s| - 1]) == Segments(s) && !Doubled(s[..|s| - 1]) && s[|s| - 2] != '/'
    ensures TrimRight(s) == s[..|s| - 1]
  {
    var front := s[..|s| - 1];
    assert s == front + "/" + "";
    SegmentsJoin("", front, "");
    forall i | 0 <= i < |front| - 1 ensures !(front[i] == '/' && front[i + 1] == '/') {
      assert front[i] == s[i] && front[i + 1] == s[i + 1];
    }
  }

  // ---- Shapes ----

  /** A segment net/http takes: a literal without `{`, or a whole-segment
      variable. */
  predicate Accepted(segs: seq<string>) {
    forall i :: 0 <= i < |segs| ==> '{' !in segs[i] || IsVarSegment(segs[i])
  }

  lemma ShapeClean(segs: seq<string>)
    requires Clean(segs)
    ensures Clean(ShapeSegments(segs))
  {
  }

  /** Shapes are equal exactly when their segments are. */
  lemma ShapeSegmentsOf(a: string, b: string)
    ensures Shape(a) == Shape(b) <==> ShapeSegments(Segments(a)) == ShapeSegments(Segments(b))
  {
    var x, y := ShapeSegments(Segments(a)), ShapeSegments(Segments(b));
    SegmentsClean("", a);
    SegmentsClean("", b);
    ShapeClean(Segments(a));
    ShapeClean(Segments(b));
    if Shape(a) == Shape(b) {
      assert Shape(a)[1..] == Join(x) && Shape(b)[1..] == Join(y);
      SegmentsOfJoin(x);
      SegmentsOfJoin(y);
    }
  }
}
