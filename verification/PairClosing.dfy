/** Which round, square and curly brackets of a file are closed: those that
    some closer is paired with, where pairs nest. */
module PairClosing {
  import opened Brackets
  import opened AngleClosing

  function KindOf(toks: seq<Token>, i: nat): Kind requires i < |toks| { toks[i].lex.kind }

  /** `(` with `)`, `[` with `]` and `{` with `}`. */
  predicate Pair(open: Kind, close: Kind) {
    || (open == LParen && close == RParen) || (open == LBracket && close == RBracket)
    || (open == LBrace && close == RBrace)
  }

  predicate Opening(k: Kind) { k in {LParen, LBracket, LBrace} }

  predicate ClosingKind(k: Kind) { k in {RParen, RBracket, RBrace} }

  /** Which closer closes which bracket: pairs of their positions. */
  type Matching = iset<(nat, nat)>

  /** Before y, a closer has closed the bracket at x or one around it. */
  ghost predicate Gone(m: Matching, x: nat, y: nat) {
    exists w: nat, z: nat :: w <= x < z < y && (w, z) in m
  }

  /** The closer at y is that of the bracket at w, which is not gone, and every
      bracket of that kind between them is. */
  ghost predicate Closing(toks: seq<Token>, m: Matching, w: nat, y: nat) {
    && w < y < |toks| && Pair(KindOf(toks, w), KindOf(toks, y)) && !Gone(m, w, y)
    && forall x: nat {:trigger Gone(m, x, y)} :: w < x < y && KindOf(toks, x) == KindOf(toks, w) ==> Gone(m, x, y)
  }

  /** The pairs are exactly those that may close, each by what was closed
      before it. */
  ghost predicate IsMatching(toks: seq<Token>, m: Matching) { forall y: nat :: MatchedAt(toks, m, y) }

  ghost predicate MatchedAt(toks: seq<Token>, m: Matching, y: nat) {
    forall w: nat :: (w, y) in m <==> Closing(toks, m, w, y)
  }

  lemma GoneNext(m: Matching, x: nat, y: nat)
    ensures Gone(m, x, y + 1) <==> Gone(m, x, y) || exists w: nat :: w <= x < y && (w, y) in m
  {
    if Gone(m, x, y + 1) {
      var w: nat, z: nat :| w <= x < z < y + 1 && (w, z) in m;
      if z < y { assert Gone(m, x, y); }
    }
  }

  // ---- The stack holds the brackets not gone ----

  ghost predicate Sorted(open: seq<nat>) { forall i, j :: 0 <= i < j < |open| ==> open[i] < open[j] }

  ghost predicate Pending(toks: seq<Token>, m: Matching, n: nat, x: nat) {
    x < n <= |toks| && Opens(KindOf(toks, x)) && !Gone(m, x, n)
  }

  ghost predicate OpenRight(toks: seq<Token>, m: Matching, n: nat, open: seq<nat>) {
    Sorted(open) && forall x: nat :: x in open <==> Pending(toks, m, n, x)
  }

  lemma OpenBelow(toks: seq<Token>, m: Matching, n: nat, open: seq<nat>)
    requires OpenRight(toks, m, n, open)
    ensures forall i :: 0 <= i < |open| ==> open[i] < n <= |toks| && Opens(KindOf(toks, open[i]))
  {
    forall i | 0 <= i < |open| ensures Pending(toks, m, n, open[i]) { assert open[i] in open; }
  }

  lemma PendingNew(toks: seq<Token>, m: Matching, n: nat)
    requires n < |toks|
    ensures Pending(toks, m, n + 1, n) <==> Opens(KindOf(toks, n))
  {
  }

  lemma {:induction false} InnermostLast(toks: seq<Token>, open: seq<nat>, k: Kind)
    requires forall i :: 0 <= i < |open| ==> open[i] < |toks|
    ensures var j := Innermost(toks, open, k);
      && (j >= 0 ==> Closer(KindOf(toks, open[j])) == k)
      && forall i :: j < i < |open| ==> Closer(KindOf(toks, open[i])) != k
  {
    if open != [] && Closer(KindOf(toks, open[|open| - 1])) != k {
      var front := open[..|open| - 1];
      InnermostLast(toks, front, k);
      assert forall i :: 0 <= i < |front| ==> front[i] == open[i];
    }
  }

  lemma LaterInside(open: seq<nat>, j: nat, x: nat)
    requires Sorted(open) && j < |open| && x in open
    ensures open[j] < x ==> exists i :: j < i < |open| && open[i] == x
  {
    var i :| 0 <= i < |open| && open[i] == x;
    assert i < j ==> open[i] < open[j];
  }

  /** The closer at n closes the innermost pending bracket of its kind. */
  lemma ClosesInnermost(toks: seq<Token>, m: Matching, n: nat, open: seq<nat>, j: nat)
    requires n < |toks| && OpenRight(toks, m, n, open) && j < |open|
    requires forall i :: 0 <= i < |open| ==> open[i] < |toks|
    requires Closer(KindOf(toks, open[j])) == KindOf(toks, n)
    requires forall i :: j < i < |open| ==> Closer(KindOf(toks, open[i])) != KindOf(toks, n)
    ensures Closing(toks, m, open[j], n)
  {
    assert open[j] in open && Pending(toks, m, n, open[j]);
    forall x: nat | open[j] < x < n && KindOf(toks, x) == KindOf(toks, open[j]) ensures Gone(m, x, n) {
      assert x in open <==> Pending(toks, m, n, x);
      if x in open { LaterInside(open, j, x); }
    }
  }

  lemma CloserTells(a: Kind, b: Kind)
    requires Opens(a) && Opens(b)
    ensures Closer(a) == Closer(b) ==> a == b
  {
  }

  /** A closer closes one bracket at most. */
  lemma ClosesOne(toks: seq<Token>, m: Matching, w: nat, x: nat, y: nat)
    requires Closing(toks, m, w, y) && Closing(toks, m, x, y)
    ensures w == x
  {
    CloserTells(KindOf(toks, w), KindOf(toks, x));
  }

  /** Only a pending bracket of the closer's kind is closed. */
  lemma ClosedWasOpen(toks: seq<Token>, m: Matching, n: nat, open: seq<nat>, w: nat)
    requires OpenRight(toks, m, n, open) && Closing(toks, m, w, n)
    ensures w in open && Closer(KindOf(toks, w)) == KindOf(toks, n)
  {
    assert Pending(toks, m, n, w);
  }

  /** A token that closes nothing leaves what is pending. */
  lemma NothingClosed(toks: seq<Token>, m: Matching, n: nat, open: seq<nat>)
    requires n < |toks| && OpenRight(toks, m, n, open) && forall w: nat :: (w, n) !in m
    ensures OpenRight(toks, m, n + 1, if Opens(KindOf(toks, n)) then open + [n] else open)
  {
    var open' := if Opens(KindOf(toks, n)) then open + [n] else open;
    OpenBelow(toks, m, n, open);
    PendingNew(toks, m, n);
    forall x: nat ensures x in open' <==> Pending(toks, m, n + 1, x) {
      GoneNext(m, x, n);
      assert x in open <==> Pending(toks, m, n, x);
    }
  }

  lemma InFront(open: seq<nat>, j: nat, x: nat)
    requires Sorted(open) && j < |open|
    ensures x in open[..j] <==> x in open && x < open[j]
  {
    if x in open {
      var i :| 0 <= i < |open| && open[i] == x;
      if i < j { assert open[..j][i] == x; }
      assert j < i ==> open[j] < open[i];
    }
  }

  /** A closer takes the bracket it closes and those inside it away. */
  lemma CloserCuts(toks: seq<Token>, m: Matching, n: nat, open: seq<nat>, j: nat)
    requires n < |toks| && OpenRight(toks, m, n, open) && Closes(KindOf(toks, n)) && j < |open|
    requires forall w: nat :: (w, n) in m <==> w == open[j]
    ensures OpenRight(toks, m, n + 1, open[..j])
  {
    OpenBelow(toks, m, n, open);
    PendingNew(toks, m, n);
    forall x: nat ensures x in open[..j] <==> Pending(toks, m, n + 1, x) {
      InFront(open, j, x);
      GoneNext(m, x, n);
      assert (open[j], n) in m;
      assert x in open <==> Pending(toks, m, n, x);
    }
  }

  // ---- The table is that of the matching ----

  /** The bracket on the stack that the closer at n closes, if any. */
  function Answered(toks: seq<Token>, n: nat): int
    requires n < |toks|
  {
    if Closes(KindOf(toks, n)) then Innermost(toks, PairsAfter(toks, n).open, KindOf(toks, n)) else -1
  }

  /** What the closer at n closes, by the stack. */
  ghost predicate ByStack(toks: seq<Token>, w: nat, n: nat) {
    n < |toks| && Answered(toks, n) >= 0 && PairsAfter(toks, n).open[Answered(toks, n)] == w
  }

  /** Where the stack is right, it closes what the matching closes. */
  lemma StackCloses(toks: seq<Token>, m: Matching, n: nat, w: nat)
    requires n < |toks| && OpenRight(toks, m, n, PairsAfter(toks, n).open)
    ensures ByStack(toks, w, n) <==> Closing(toks, m, w, n)
  {
    var open, j := PairsAfter(toks, n).open, Answered(toks, n);
    OpenBelow(toks, m, n, open);
    if Closes(KindOf(toks, n)) {
      InnermostLast(toks, open, KindOf(toks, n));
      if j >= 0 { ClosesInnermost(toks, m, n, open, j); }
      if Closing(toks, m, w, n) {
        ClosedWasOpen(toks, m, n, open, w);
        if j >= 0 { ClosesOne(toks, m, w, open[j], n); }
      }
    }
  }

  lemma StackStep(toks: seq<Token>, m: Matching, n: nat)
    requires n < |toks| && OpenRight(toks, m, n, PairsAfter(toks, n).open)
    requires forall w: nat :: (w, n) in m <==> ByStack(toks, w, n)
    ensures OpenRight(toks, m, n + 1, PairsAfter(toks, n + 1).open)
  {
    var open, j := PairsAfter(toks, n).open, Answered(toks, n);
    if j >= 0 { CloserCuts(toks, m, n, open, j); } else { NothingClosed(toks, m, n, open); }
  }

  /** The pairs the stack makes. */
  ghost function StackMatching(toks: seq<Token>): Matching { iset w: nat, y: nat | ByStack(toks, w, y) :: (w, y) }

  lemma {:induction false} StackRightAt(toks: seq<Token>, m: Matching, n: nat)
    requires n <= |toks| && (IsMatching(toks, m) || m == StackMatching(toks))
    ensures OpenRight(toks, m, n, PairsAfter(toks, n).open)
  {
    if n > 0 {
      var last := n - 1;
      StackRightAt(toks, m, last);
      forall w: nat ensures (w, last) in m <==> ByStack(toks, w, last) {
        StackCloses(toks, m, last, w);
        assert IsMatching(toks, m) ==> MatchedAt(toks, m, last);
      }
      StackStep(toks, m, last);
    }
  }

  lemma StackAgrees(toks: seq<Token>, m: Matching, w: nat, y: nat)
    requires IsMatching(toks, m) || m == StackMatching(toks)
    ensures ByStack(toks, w, y) <==> Closing(toks, m, w, y)
  {
    if y < |toks| {
      StackRightAt(toks, m, y);
      StackCloses(toks, m, y, w);
    }
  }

  /** A file has a matching: the pairs the stack makes. */
  lemma MatchingExists(toks: seq<Token>)
    ensures IsMatching(toks, StackMatching(toks))
  {
    var m := StackMatching(toks);
    forall y: nat ensures MatchedAt(toks, m, y) {
      forall w: nat ensures (w, y) in m <==> Closing(toks, m, w, y) { StackAgrees(toks, m, w, y); }
    }
  }

  /** It has no other. */
  lemma MatchingUnique(toks: seq<Token>, m: Matching)
    requires IsMatching(toks, m)
    ensures m == StackMatching(toks)
  {
    forall p: (nat, nat) ensures p in m <==> p in StackMatching(toks) {
      StackAgrees(toks, m, p.0, p.1);
      assert MatchedAt(toks, m, p.1) && p == (p.0, p.1);
    }
  }

  lemma MarkStep(toks: seq<Token>, n: nat, x: nat)
    requires n < |toks|
    ensures x in PairsAfter(toks, n + 1).closed <==> x in PairsAfter(toks, n).closed || ByStack(toks, x, n)
  {
  }

  /** The marks after each token add up the brackets each closer closes. */
  ghost predicate AddsUp(marks: seq<set<nat>>, m: Matching) {
    && marks != [] && marks[0] == {}
    && forall k: nat {:trigger AddsAt(marks, m, k)} :: k < |marks| - 1 ==> AddsAt(marks, m, k)
  }

  ghost predicate AddsAt(marks: seq<set<nat>>, m: Matching, k: nat)
    requires k < |marks| - 1
  {
    forall x: nat :: x in marks[k + 1] <==> x in marks[k] || (x, k) in m
  }

  lemma {:induction false} MarkedFrom(marks: seq<set<nat>>, m: Matching, n: nat, x: nat) returns (y: nat)
    requires AddsUp(marks, m) && n < |marks| && x in marks[n]
    ensures y < n && (x, y) in m
  {
    var last := n - 1;
    assert AddsAt(marks, m, last);
    if (x, last) in m { y := last; } else { y := MarkedFrom(marks, m, last, x); }
  }

  lemma {:induction false} MarkedBy(marks: seq<set<nat>>, m: Matching, n: nat, x: nat, y: nat)
    requires AddsUp(marks, m) && y < n < |marks| && (x, y) in m
    ensures x in marks[n]
  {
    var last := n - 1;
    assert AddsAt(marks, m, last);
    if y < last { MarkedBy(marks, m, last, x, y); }
  }

  lemma AddOn(marks: seq<set<nat>>, m: Matching, next: set<nat>)
    requires AddsUp(marks, m)
    requires forall x: nat :: x in next <==> x in marks[|marks| - 1] || (x, |marks| - 1) in m
    ensures AddsUp(marks + [next], m)
  {
    var more := marks + [next];
    forall k: nat | k < |more| - 1 ensures AddsAt(more, m, k) {
      if k < |marks| - 1 { assert AddsAt(marks, m, k); }
    }
  }

  ghost predicate Stacked(toks: seq<Token>, m: Matching) {
    forall k: nat {:trigger StackedAt(toks, m, k)} :: StackedAt(toks, m, k)
  }

  ghost predicate StackedAt(toks: seq<Token>, m: Matching, k: nat) {
    forall w: nat :: (w, k) in m <==> ByStack(toks, w, k)
  }

  lemma {:induction false} MarksAddUp(toks: seq<Token>, m: Matching, n: nat) returns (marks: seq<set<nat>>)
    requires n <= |toks| && Stacked(toks, m)
    ensures AddsUp(marks, m) && |marks| == n + 1 && marks[n] == PairsAfter(toks, n).closed
  {
    if n == 0 {
      marks := [{}];
    } else {
      var last := n - 1;
      var before := MarksAddUp(toks, m, last);
      assert StackedAt(toks, m, last);
      forall x: nat ensures x in PairsAfter(toks, n).closed <==> x in before[last] || (x, last) in m {
        MarkStep(toks, last, x);
      }
      AddOn(before, m, PairsAfter(toks, n).closed);
      marks := before + [PairsAfter(toks, n).closed];
    }
  }

  /** A round, square or curly bracket is marked closed exactly when the one
      matching of the file closes it. */
  lemma PairClosedExactly(toks: seq<Token>, m: Matching, i: nat)
    requires i < |toks| && Opening(KindOf(toks, i)) && IsMatching(toks, m)
    ensures IsClosed(toks, i) <==> exists y: nat :: (i, y) in m
  {
    MatchingUnique(toks, m);
    NoAngle(toks, i);
    forall k: nat ensures StackedAt(toks, m, k) {}
    var marks := MarksAddUp(toks, m, |toks|);
    if i in marks[|toks|] { var y := MarkedFrom(marks, m, |toks|, i); }
    if y: nat :| (i, y) in m { MarkedBy(marks, m, |toks|, i, y); }
  }

  lemma NoAngle(toks: seq<Token>, i: nat)
    requires i < |toks| && KindOf(toks, i) != LAngle
    ensures i !in AnglesAfter(toks, |toks|).closed
  {
    AnglesRight(toks, |toks|);
  }

  /** Pairs nest: a bracket opened inside another is closed before it, if at
      all. */
  lemma PairsNest(toks: seq<Token>, m: Matching, w: nat, y: nat, x: nat, z: nat)
    requires IsMatching(toks, m) && (w, y) in m && (x, z) in m && w < x < y
    ensures z < y
  {
    assert MatchedAt(toks, m, y) && MatchedAt(toks, m, z);
    assert z > y ==> Gone(m, x, z);
    if z == y { ClosesOne(toks, m, w, x, y); }
  }

  /** A closer is stray exactly when every bracket of its kind before it is
      gone. */
  lemma StrayExactly(toks: seq<Token>, m: Matching, y: nat)
    requires IsMatching(toks, m) && y < |toks| && ClosingKind(KindOf(toks, y))
    ensures (forall w: nat :: (w, y) !in m) <==>
      (forall x: nat :: x < y && Pair(KindOf(toks, x), KindOf(toks, y)) ==> Gone(m, x, y))
  {
    StackRightAt(toks, m, y);
    var j := Answered(toks, y);
    assert MatchedAt(toks, m, y);
    if j >= 0 { AnsweredCloses(toks, m, y); } else { UnansweredGone(toks, m, y); }
  }

  lemma AnsweredCloses(toks: seq<Token>, m: Matching, y: nat)
    requires y < |toks| && OpenRight(toks, m, y, PairsAfter(toks, y).open) && Answered(toks, y) >= 0
    ensures Closing(toks, m, PairsAfter(toks, y).open[Answered(toks, y)], y)
  {
    var open, j := PairsAfter(toks, y).open, Answered(toks, y);
    OpenBelow(toks, m, y, open);
    InnermostLast(toks, open, KindOf(toks, y));
    ClosesInnermost(toks, m, y, open, j);
  }

  lemma UnansweredGone(toks: seq<Token>, m: Matching, y: nat)
    requires y < |toks| && OpenRight(toks, m, y, PairsAfter(toks, y).open)
    requires ClosingKind(KindOf(toks, y)) && Answered(toks, y) < 0
    ensures forall x: nat :: x < y && Pair(KindOf(toks, x), KindOf(toks, y)) ==> Gone(m, x, y)
  {
    forall x: nat | x < y && Pair(KindOf(toks, x), KindOf(toks, y)) ensures Gone(m, x, y) {
      NotOpen(toks, PairsAfter(toks, y).open, KindOf(toks, y), x);
      assert !Pending(toks, m, y, x);
    }
  }

  /** Where the stack holds no bracket a closer closes, it holds none of its
      kind. */
  lemma NotOpen(toks: seq<Token>, open: seq<nat>, k: Kind, x: nat)
    requires forall i :: 0 <= i < |open| ==> open[i] < |toks|
    requires x < |toks| && Pair(KindOf(toks, x), k) && Innermost(toks, open, k) < 0
    ensures x !in open
  {
    InnermostLast(toks, open, k);
    forall i | 0 <= i < |open| ensures open[i] != x { assert Closer(KindOf(toks, open[i])) != k; }
  }
}
