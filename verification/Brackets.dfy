/** Tokens, the printed form of types, and the brackets of a file that are
    closed. */
module Brackets {
  import opened Ast

  /** The token kinds the type grammar tells apart; Other stands for any
      keyword, literal or symbol it has no use for. */
  datatype Kind =
    | Ident | KwMap | Dot | Comma | Question
    | LAngle | RAngle | LBracket | RBracket | LParen | RParen | LBrace | RBrace
    | Other | EOF

  /** What is printed: a kind and, for an identifier, its text. */
  datatype Lexeme = Lexeme(kind: Kind, text: string)

  datatype Token = Token(lex: Lexeme, line: nat)

  function Mark(k: Kind): Lexeme { Lexeme(k, "") }

  // ---- The printed form of a type ----

  function PrintName(parts: seq<string>): seq<Lexeme>
    requires parts != []
  {
    if |parts| == 1 then [Lexeme(Ident, parts[0])]
    else [Lexeme(Ident, parts[0]), Mark(Dot)] + PrintName(parts[1..])
  }

  function PrintDims(dims: nat): seq<Lexeme> {
    if dims == 0 then [] else [Mark(LBracket), Mark(RBracket)] + PrintDims(dims - 1)
  }

  function PrintSuffix(dims: nat, optional: bool): seq<Lexeme> {
    PrintDims(dims) + if optional then [Mark(Question)] else []
  }

  /** Every name in t has a part. */
  predicate Nameable(t: TypeRef) {
    match t
    case MapOf(k, v, _, _) => Nameable(k) && Nameable(v)
    case Named(n, _, _) => n.parts != [] && NameableArgs(n.args)
  }

  predicate NameableArgs(args: seq<TypeRef>) {
    args == [] || (Nameable(args[0]) && NameableArgs(args[1..]))
  }

  function PrintBase(t: TypeRef): seq<Lexeme>
    requires Nameable(t)
    decreases t, 0
  {
    match t
    case MapOf(k, v, _, _) => [Mark(KwMap), Mark(LAngle)] + Print(k) + [Mark(Comma)] + Print(v) + [Mark(RAngle)]
    case Named(n, _, _) =>
      if n.args == [] then PrintName(n.parts)
      else PrintName(n.parts) + [Mark(LAngle)] + PrintArgs(n.args) + [Mark(RAngle)]
  }

  /** The tokens of t as the DSL spells it. */
  function Print(t: TypeRef): seq<Lexeme>
    requires Nameable(t)
    decreases t, 1
  {
    PrintBase(t) + PrintSuffix(t.dims, t.optional)
  }

  function PrintArgs(args: seq<TypeRef>): seq<Lexeme>
    requires args != [] && NameableArgs(args)
    decreases args
  {
    if |args| == 1 then Print(args[0])
    else Print(args[0]) + [Mark(Comma)] + PrintArgs(args[1..])
  }

  // ---- Angle brackets ----

  /** The `<` still open after a prefix of the file, and those closed in it. */
  datatype Angles = Angles(open: seq<nat>, closed: set<nat>)

  predicate InTypeArgs(k: Kind) {
    match k
    case Ident | KwMap | Dot | Comma | Question | LAngle | RAngle | LBracket | RBracket => true
    case _ => false
  }

  function AngleStep(k: Kind, i: nat, s: Angles): Angles {
    if k == LAngle then s.(open := s.open + [i])
    else if k == RAngle then
      if s.open == [] then s
      else Angles(s.open[..|s.open| - 1], s.closed + {s.open[|s.open| - 1]})
    else if InTypeArgs(k) then s
    else s.(open := [])
  }

  function AnglesAfter(toks: seq<Token>, n: nat): Angles
    requires n <= |toks|
  {
    if n == 0 then Angles([], {}) else AngleStep(toks[n - 1].lex.kind, n - 1, AnglesAfter(toks, n - 1))
  }

  // ---- Round, square and curly brackets ----

  datatype Pairs = Pairs(open: seq<nat>, closed: set<nat>)

  function Closer(k: Kind): Kind {
    match k
    case LParen => RParen
    case LBracket => RBracket
    case LBrace => RBrace
    case LAngle => RAngle
    case _ => EOF
  }

  predicate Opens(k: Kind) { k == LParen || k == LBracket || k == LBrace }

  predicate Closes(k: Kind) { k == RParen || k == RBracket || k == RBrace }

  /** The innermost open bracket that k closes, or one before the first. */
  function Innermost(toks: seq<Token>, open: seq<nat>, k: Kind): (j: int)
    requires forall i :: 0 <= i < |open| ==> open[i] < |toks|
    ensures -1 <= j < |open|
  {
    if open == [] then -1
    else if Closer(toks[open[|open| - 1]].lex.kind) == k then |open| - 1
    else Innermost(toks, open[..|open| - 1], k)
  }

  function PairStep(toks: seq<Token>, i: nat, s: Pairs): Pairs
    requires i < |toks| && forall j :: 0 <= j < |s.open| ==> s.open[j] < |toks|
  {
    var k := toks[i].lex.kind;
    if Opens(k) then s.(open := s.open + [i])
    else if Closes(k) then
      var j := Innermost(toks, s.open, k);
      if j < 0 then s else Pairs(s.open[..j], s.closed + {s.open[j]})
    else s
  }

  function PairsAfter(toks: seq<Token>, n: nat): (s: Pairs)
    requires n <= |toks|
    ensures forall j :: 0 <= j < |s.open| ==> s.open[j] < n && Opens(toks[s.open[j]].lex.kind)
    ensures forall x :: x in s.closed ==> x < n && Opens(toks[x].lex.kind)
  {
    if n == 0 then Pairs([], {}) else PairStep(toks, n - 1, PairsAfter(toks, n - 1))
  }

  /** Whether the opening bracket at i is closed. */
  predicate IsClosed(toks: seq<Token>, i: nat) {
    i in AnglesAfter(toks, |toks|).closed || i in PairsAfter(toks, |toks|).closed
  }

  predicate MarksUnion(closed: seq<bool>, a: set<nat>, b: set<nat>) {
    forall x :: 0 <= x < |closed| ==> (closed[x] <==> x in a || x in b)
  }

  method FindInnermost(toks: seq<Token>, open: seq<nat>, k: Kind) returns (j: int)
    requires forall i :: 0 <= i < |open| ==> open[i] < |toks|
    ensures j == Innermost(toks, open, k)
  {
    j := |open| - 1;
    assert open[..|open|] == open;
    while j >= 0 && Closer(toks[open[j]].lex.kind) != k
      invariant -1 <= j < |open|
      invariant Innermost(toks, open, k) == Innermost(toks, open[..j + 1], k)
    {
      assert open[..j + 1][..j] == open[..j];
      j := j - 1;
    }
    if j >= 0 { assert open[..j + 1][j] == open[j]; }
  }

  /** Moves the open `<` and the marks past token i. */
  method MarkAngles(k: Kind, i: nat, open: seq<nat>, closed: seq<bool>, ghost a: set<nat>, ghost b: set<nat>)
    returns (open': seq<nat>, closed': seq<bool>)
    requires MarksUnion(closed, a, b) && forall x :: 0 <= x < |open| ==> open[x] < i < |closed|
    requires i < |closed|
    ensures open' == AngleStep(k, i, Angles(open, a)).open && forall x :: 0 <= x < |open'| ==> open'[x] < i + 1
    ensures |closed'| == |closed| && MarksUnion(closed', AngleStep(k, i, Angles(open, a)).closed, b)
  {
    open', closed' := open, closed;
    if k == LAngle {
      open' := open + [i];
    } else if k == RAngle {
      if open != [] {
        closed' := closed[open[|open| - 1] := true];
        open' := open[..|open| - 1];
      }
    } else if !InTypeArgs(k) {
      open' := [];
    }
  }

  /** Moves the other open brackets and the marks past token i. */
  method MarkPairs(toks: seq<Token>, i: nat, open: seq<nat>, closed: seq<bool>, ghost a: set<nat>, ghost b: set<nat>)
    returns (open': seq<nat>, closed': seq<bool>)
    requires i < |toks| == |closed| && MarksUnion(closed, a, b) && forall x :: 0 <= x < |open| ==> open[x] < |toks|
    ensures open' == PairStep(toks, i, Pairs(open, b)).open
    ensures |closed'| == |closed| && MarksUnion(closed', a, PairStep(toks, i, Pairs(open, b)).closed)
  {
    open', closed' := open, closed;
    var k := toks[i].lex.kind;
    if Opens(k) {
      open' := open + [i];
    } else if Closes(k) {
      var j := FindInnermost(toks, open, k);
      if j >= 0 {
        closed' := closed[open[j] := true];
        open' := open[..j];
      }
    }
  }

  /** The table of closed brackets: one entry for each token. */
  method ClosedBrackets(toks: seq<Token>) returns (closed: seq<bool>)
    ensures |closed| == |toks| && forall i :: 0 <= i < |toks| ==> (closed[i] <==> IsClosed(toks, i))
  {
    closed := seq(|toks|, _ => false);
    var brackets: seq<nat>, angles: seq<nat> := [], [];
    ghost var a: set<nat>, b: set<nat> := {}, {};
    for i := 0 to |toks|
      invariant |closed| == |toks|
      invariant Angles(angles, a) == AnglesAfter(toks, i) && Pairs(brackets, b) == PairsAfter(toks, i)
      invariant forall x :: 0 <= x < |angles| ==> angles[x] < i
      invariant MarksUnion(closed, a, b)
    {
      var k := toks[i].lex.kind;
      ghost var a' := AngleStep(k, i, Angles(angles, a)).closed;
      angles, closed := MarkAngles(k, i, angles, closed, a, b);
      a := a';
      ghost var b' := PairStep(toks, i, Pairs(brackets, b)).closed;
      brackets, closed := MarkPairs(toks, i, brackets, closed, a, b);
      b := b';
    }
  }
}
