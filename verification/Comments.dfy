/** The formatter's check that its output keeps every comment. */
module Comments {
  import opened Ast

  /** A comment with the construct and scope it belongs to. */
  datatype Placed = Placed(place: seq<nat>, text: string)

  /** What the check reads of a parsed file: its comments' texts, and its
      layout's comments. */
  datatype Layout = Layout(comments: seq<string>, placed: seq<Placed>)

  /** Every placed text is the text of some comment of the file. */
  predicate Coherent(f: Layout) { forall c :: c in f.placed ==> c.text in f.comments }

  function Count<T(==)>(counts: map<T, int>, t: T): int { if t in counts then counts[t] else 0 }

  /** How often t is among the first n of ts. */
  ghost function Times<T>(ts: seq<T>, n: nat, t: T): nat
    requires n <= |ts|
  {
    if n == 0 then 0 else Times(ts, n - 1, t) + if ts[n - 1] == t then 1 else 0
  }

  lemma {:induction false} TimesCounts<T>(ts: seq<T>, n: nat, t: T)
    requires n <= |ts|
    ensures Times(ts, n, t) == multiset(ts[..n])[t]
  {
    if n > 0 {
      TimesCounts(ts, n - 1, t);
      assert ts[..n] == ts[..n - 1] + [ts[n - 1]];
    }
  }

  ghost function All<T>(ts: seq<T>, t: T): nat { Times(ts, |ts|, t) }

  lemma SameCounts<T>(a: seq<T>, b: seq<T>)
    ensures (forall t :: All(a, t) == All(b, t)) <==> multiset(a) == multiset(b)
  {
    assert a[..|a|] == a && b[..|b|] == b;
    forall t ensures All(a, t) == multiset(a)[t] && All(b, t) == multiset(b)[t] {
      TimesCounts(a, |a|, t);
      TimesCounts(b, |b|, t);
    }
    if forall t :: All(a, t) == All(b, t) {
      assert forall t :: multiset(a)[t] == multiset(b)[t];
    }
  }

  lemma {:induction false} TimesIn<T>(ts: seq<T>, n: nat, t: T)
    requires n <= |ts|
    ensures Times(ts, n, t) > 0 <==> t in ts[..n]
  {
    TimesCounts(ts, n, t);
  }

  /** Counts the texts of out against those of in. */
  method Surplus(ins: seq<string>, outs: seq<string>) returns (extra: map<string, int>)
    ensures forall t :: Count(extra, t) == All(outs, t) - All(ins, t)
  {
    extra := map[];
    for i := 0 to |outs|
      invariant forall t :: Count(extra, t) == Times(outs, i, t)
    {
      extra := extra[outs[i] := Count(extra, outs[i]) + 1];
    }
    for i := 0 to |ins|
      invariant forall t :: Count(extra, t) == All(outs, t) - Times(ins, i, t)
    {
      extra := extra[ins[i] := Count(extra, ins[i]) - 1];
    }
  }

  /** Refuses exactly when the texts differ as multisets. */
  method TextsDiffer(ins: seq<string>, outs: seq<string>) returns (refused: bool)
    ensures refused <==> multiset(ins) != multiset(outs)
  {
    var extra := Surplus(ins, outs);
    SameCounts(ins, outs);
    for i := 0 to |ins|
      invariant forall k :: 0 <= k < i ==> Count(extra, ins[k]) == 0
    {
      if Count(extra, ins[i]) != 0 { return true; }
    }
    for i := 0 to |outs|
      invariant forall k :: 0 <= k < i ==> Count(extra, outs[k]) <= 0
    {
      if Count(extra, outs[i]) > 0 { return true; }
    }
    forall t ensures All(ins, t) == All(outs, t) {
      TimesIn(ins, |ins|, t);
      TimesIn(outs, |outs|, t);
      assert ins[..|ins|] == ins && outs[..|outs|] == outs;
    }
    return false;
  }

  /** The texts of the comments one layout holds more often than the other. */
  ghost predicate Moved(ins: seq<Placed>, outs: seq<Placed>, text: string) {
    exists c: Placed :: c.text == text && All(ins, c) != All(outs, c)
  }

  /** What is left of m comments once n have been taken away. */
  function Left(m: int, n: int): int { if m > n then m - n else 0 }

  /** Takes each comment of in from those of out. */
  method Match(ins: seq<Placed>, outs: seq<Placed>) returns (left: map<Placed, int>, moved: set<string>)
    ensures forall c :: Count(left, c) == Left(All(outs, c), All(ins, c))
    ensures forall t :: t in moved <==> exists c: Placed :: c.text == t && All(ins, c) > All(outs, c)
  {
    left := map[];
    for i := 0 to |outs|
      invariant forall c :: Count(left, c) == Times(outs, i, c)
    {
      left := left[outs[i] := Count(left, outs[i]) + 1];
    }
    moved := {};
    for i := 0 to |ins|
      invariant forall c :: Count(left, c) == Left(All(outs, c), Times(ins, i, c))
      invariant forall t :: t in moved <==> exists c: Placed :: c.text == t && Times(ins, i, c) > All(outs, c)
    {
      var c := ins[i];
      if Count(left, c) > 0 {
        left := left[c := Count(left, c) - 1];
      } else {
        moved := moved + {c.text};
        assert Times(ins, i + 1, c) > All(outs, c);
      }
    }
  }

  /** Refuses exactly when a moved comment is one of the file's. */
  method MovedComment(comments: seq<string>, ins: seq<Placed>, outs: seq<Placed>) returns (refused: bool)
    ensures refused <==> exists t :: t in comments && Moved(ins, outs, t)
  {
    var left, moved := Match(ins, outs);
    var keys := left.Keys;
    while keys != {}
      invariant keys <= left.Keys
      invariant forall t :: t in moved <==>
          exists c: Placed :: c.text == t && (All(ins, c) > All(outs, c) || (c in left.Keys - keys && left[c] > 0))
      decreases keys
    {
      var c :| c in keys;
      keys := keys - {c};
      if left[c] > 0 { moved := moved + {c.text}; }
    }
    forall t ensures t in moved <==> Moved(ins, outs, t) {
      MovedExactly(ins, outs, left, t);
    }
    for i := 0 to |comments|
      invariant forall k :: 0 <= k < i ==> comments[k] !in moved
    {
      if comments[i] in moved { return true; }
    }
    return false;
  }

  lemma MovedExactly(ins: seq<Placed>, outs: seq<Placed>, left: map<Placed, int>, t: string)
    requires forall c :: Count(left, c) == Left(All(outs, c), All(ins, c))
    ensures Moved(ins, outs, t) <==>
      (exists c: Placed :: c.text == t && (All(ins, c) > All(outs, c) || (c in left.Keys && left[c] > 0)))
  {
    forall c ensures All(ins, c) != All(outs, c) <==> All(ins, c) > All(outs, c) || (c in left.Keys && left[c] > 0) {
      assert Count(left, c) == Left(All(outs, c), All(ins, c));
    }
  }

  /** after holds the comments of before, each in its place. */
  ghost predicate Kept(before: Layout, after: Layout) {
    multiset(before.comments) == multiset(after.comments) && multiset(before.placed) == multiset(after.placed)
  }

  /** Refuses an output that does not parse, or whose comments differ or sit
      elsewhere. */
  method CheckOutput(before: Layout, after: Option<Layout>) returns (refused: bool)
    ensures !refused ==> after.Some? && multiset(before.comments) == multiset(after.value.comments)
    ensures after.Some? && Kept(before, after.value) ==> !refused
    ensures after.Some? && Coherent(before) && Coherent(after.value) ==> (!refused <==> Kept(before, after.value))
  {
    if after.None? { return true; }
    refused := TextsDiffer(before.comments, after.value.comments);
    if refused { return true; }
    refused := MovedComment(before.comments, before.placed, after.value.placed);
    SameCounts(before.placed, after.value.placed);
    if Coherent(before) && Coherent(after.value) { NoneMoved(before, after.value); }
  }

  lemma NoneMoved(before: Layout, after: Layout)
    requires Coherent(before) && Coherent(after) && multiset(before.comments) == multiset(after.comments)
    ensures (exists t :: t in before.comments && Moved(before.placed, after.placed, t)) <==>
      (exists c :: All(before.placed, c) != All(after.placed, c))
  {
    forall c | All(before.placed, c) != All(after.placed, c)
      ensures c.text in before.comments && Moved(before.placed, after.placed, c.text)
    {
      TimesIn(before.placed, |before.placed|, c);
      TimesIn(after.placed, |after.placed|, c);
      assert before.placed[..|before.placed|] == before.placed && after.placed[..|after.placed|] == after.placed;
      assert c.text in multiset(before.comments) || c.text in multiset(after.comments);
    }
  }
}
