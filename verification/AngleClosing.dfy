/** Which `<` of a file are closed: those a `>` answers with nothing
    but tokens of type arguments between. */
module AngleClosing {
  import opened Brackets

  /** The `<` less the `>` among the tokens from i up to n. */
  ghost function Rise(toks: seq<Token>, i: nat, n: nat): int
    requires i <= n <= |toks|
  {
    if n == i then 0 else
      var k := toks[n - 1].lex.kind;
      Rise(toks, i, n - 1) + (if k == LAngle then 1 else if k == RAngle then -1 else 0)
  }

  /** A token of type arguments: a name, the word map, or one of `.`, `,`, `?`,
      `<`, `>`, `[` and `]`. */
  predicate TypeToken(k: Kind) {
    k in {Ident, KwMap, Dot, Comma, Question, LAngle, RAngle, LBracket, RBracket}
  }

  /** The `<` at i is open before token n: only tokens of type arguments
      follow it, and no `>` among them answers it. */
  ghost predicate Live(toks: seq<Token>, i: nat, n: nat) {
    && i < n <= |toks| && toks[i].lex.kind == LAngle
    && (forall x :: i < x < n ==> TypeToken(toks[x].lex.kind))
    && (forall x :: i < x <= n ==> Rise(toks, i, x) >= 1)
  }

  /** The `>` at j answers the `<` at i. */
  ghost predicate Answers(toks: seq<Token>, i: nat, j: nat) {
    Live(toks, i, j) && j < |toks| && toks[j].lex.kind == RAngle && Rise(toks, i, j + 1) == 0
  }

  /** The stack holds exactly the live brackets, innermost last. */
  ghost predicate StackRight(toks: seq<Token>, n: nat, open: seq<nat>) requires n <= |toks| {
    && (forall m :: 0 <= m < |open| ==> Live(toks, open[m], n) && Rise(toks, open[m], n) == |open| - m)
    && (forall i: nat :: Live(toks, i, n) ==> i in open)
  }

  ghost predicate ClosedRight(toks: seq<Token>, n: nat, closed: set<nat>) {
    forall i: nat :: i in closed <==> exists j: nat :: j < n && Answers(toks, i, j)
  }

  lemma LiveStep(toks: seq<Token>, i: nat, n: nat)
    requires n < |toks| && i < n
    ensures Live(toks, i, n + 1) <==>
      Live(toks, i, n) && TypeToken(toks[n].lex.kind) && !(toks[n].lex.kind == RAngle && Rise(toks, i, n) == 1)
  {
    if Live(toks, i, n) && TypeToken(toks[n].lex.kind) && !(toks[n].lex.kind == RAngle && Rise(toks, i, n) == 1) {
      assert Rise(toks, i, n) >= 1;
      forall x | i < x <= n + 1 ensures Rise(toks, i, x) >= 1 { }
    }
    if Live(toks, i, n + 1) {
      assert Rise(toks, i, n + 1) >= 1;
      forall x | i < x <= n ensures Rise(toks, i, x) >= 1 { }
    }
  }

  lemma LiveSelf(toks: seq<Token>, n: nat)
    requires n < |toks|
    ensures Live(toks, n, n + 1) <==> toks[n].lex.kind == LAngle
  {
    assert Rise(toks, n, n) == 0;
  }

  lemma StackStep(toks: seq<Token>, n: nat, s: Angles)
    requires n < |toks| && StackRight(toks, n, s.open)
    ensures StackRight(toks, n + 1, AngleStep(toks[n].lex.kind, n, s).open)
  {
    var k, open, open' := toks[n].lex.kind, s.open, AngleStep(toks[n].lex.kind, n, s).open;
    LiveSelf(toks, n);
    forall m | 0 <= m < |open'| ensures Live(toks, open'[m], n + 1) && Rise(toks, open'[m], n + 1) == |open'| - m {
      if m < |open| {
        assert open'[m] == open[m];
        LiveStep(toks, open[m], n);
      } else {
        assert Rise(toks, n, n) == 0;
      }
    }
    forall i: nat | Live(toks, i, n + 1) ensures i in open' {
      if i == n {
        assert open'[|open|] == n;
      } else {
        LiveStep(toks, i, n);
        var m :| 0 <= m < |open| && open[m] == i;
        assert m < |open'| && open'[m] == i;
      }
    }
  }

  lemma ClosedStep(toks: seq<Token>, n: nat, s: Angles)
    requires n < |toks| && StackRight(toks, n, s.open) && ClosedRight(toks, n, s.closed)
    ensures ClosedRight(toks, n + 1, AngleStep(toks[n].lex.kind, n, s).closed)
  {
    var closed := AngleStep(toks[n].lex.kind, n, s).closed;
    forall i: nat ensures i in closed <==> exists j: nat :: j < n + 1 && Answers(toks, i, j) {
      if Answers(toks, i, n) {
        var m :| 0 <= m < |s.open| && s.open[m] == i;
        assert Rise(toks, i, n) == 1;
      }
      if i in closed && i !in s.closed {
        assert s.open[|s.open| - 1] == i;
        assert Answers(toks, i, n);
      }
    }
  }

  lemma {:induction false} AnglesRight(toks: seq<Token>, n: nat)
    requires n <= |toks|
    ensures StackRight(toks, n, AnglesAfter(toks, n).open) && ClosedRight(toks, n, AnglesAfter(toks, n).closed)
  {
    if n == 0 {
      assert AnglesAfter(toks, 0) == Angles([], {});
      assert forall i: nat :: !Live(toks, i, 0);
    } else {
      AnglesRight(toks, n - 1);
      StackStep(toks, n - 1, AnglesAfter(toks, n - 1));
      ClosedStep(toks, n - 1, AnglesAfter(toks, n - 1));
    }
  }

  /** A `<` is closed exactly when a `>` answers it. */
  lemma AngleClosedExactly(toks: seq<Token>, i: nat)
    requires i < |toks| && toks[i].lex.kind == LAngle
    ensures IsClosed(toks, i) <==> exists j: nat :: Answers(toks, i, j)
  {
    AnglesRight(toks, |toks|);
  }
}
