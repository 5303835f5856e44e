/** What the parser has read when it reports nothing: the printed form of its
    result, but for commas before a closing `>`. */
module ParsedForms {
  import opened Ast
  import opened Brackets
  import opened TypeParser
  import opened RoundTrip

  /** A token without the text that its kind fixes. */
  function Bare(l: Lexeme): Lexeme { if l.kind == Ident then l else Mark(l.kind) }

  /** The tokens from a up to b. */
  function Said(toks: seq<Token>, a: nat, b: nat): seq<Lexeme>
    requires a <= b <= |toks|
  {
    seq(b - a, i requires 0 <= i < b - a => Bare(toks[a + i].lex))
  }

  predicate Trailing(ls: seq<Lexeme>) { |ls| > 1 && ls[0].kind == Comma && ls[1].kind == RAngle }

  /** The tokens without the commas that stand before a `>`. */
  function Tidy(ls: seq<Lexeme>): seq<Lexeme> {
    if ls == [] then [] else if Trailing(ls) then Tidy(ls[1..]) else [ls[0]] + Tidy(ls[1..])
  }

  lemma {:induction false} TidyJoin(x: seq<Lexeme>, y: seq<Lexeme>)
    requires x != [] ==> x[|x| - 1].kind != Comma
    ensures Tidy(x + y) == Tidy(x) + Tidy(y)
  {
    if x == [] {
      assert x + y == y;
    } else {
      TidyJoin(x[1..], y);
      assert (x + y)[1..] == x[1..] + y;
      assert Trailing(x + y) == Trailing(x);
    }
  }

  lemma TidyComma(y: seq<Lexeme>)
    requires y != [] && y[0].kind != RAngle
    ensures Tidy([Mark(Comma)] + y) == [Mark(Comma)] + Tidy(y)
  {
    assert ([Mark(Comma)] + y)[1..] == y;
  }

  lemma TidyOne(l: Lexeme)
    ensures Tidy([l]) == [l]
  {
    assert [l][1..] == [];
  }

  lemma SaidJoin(toks: seq<Token>, a: nat, b: nat, c: nat)
    requires a <= b <= c <= |toks|
    ensures Said(toks, a, c) == Said(toks, a, b) + Said(toks, b, c)
  {
  }

  lemma SaidOne(toks: seq<Token>, a: nat)
    requires a < |toks|
    ensures Said(toks, a, a + 1) == [Bare(toks[a].lex)]
  {
  }

  lemma SaidLast(toks: seq<Token>, a: nat, b: nat)
    requires a < b <= |toks|
    ensures Said(toks, a, b)[b - a - 1].kind == KindAt(toks, b - 1) && Said(toks, a, b)[0].kind == KindAt(toks, a)
  {
    assert Said(toks, a, b)[0] == Bare(toks[a + 0].lex);
    assert Said(toks, a, b)[b - a - 1] == Bare(toks[a + (b - a - 1)].lex);
  }

  // ---- Stretches of a stream that stand for something printed ----

  /** The tokens from a up to b are a form of ls that neither starts with a
      closer nor ends with a comma. */
  ghost predicate Tidies(toks: seq<Token>, a: nat, b: nat, ls: seq<Lexeme>) {
    && a <= b < |toks| && Tidy(Said(toks, a, b)) == ls
    && (a < b ==> KindAt(toks, a) != RAngle && KindAt(toks, b - 1) != Comma)
  }

  /** The tokens from a up to the `>` at b are a form of ls. */
  ghost predicate TidiesList(toks: seq<Token>, a: nat, b: nat, ls: seq<Lexeme>) {
    && a < b < |toks| && KindAt(toks, a) != RAngle && KindAt(toks, b) == RAngle
    && Tidy(Said(toks, a, b + 1)) == ls + [Mark(RAngle)]
  }

  lemma TidiesJoin(toks: seq<Token>, a: nat, b: nat, c: nat, x: seq<Lexeme>, y: seq<Lexeme>)
    requires Tidies(toks, a, b, x) && Tidies(toks, b, c, y)
    ensures Tidies(toks, a, c, x + y)
  {
    SaidJoin(toks, a, b, c);
    if a < b { SaidLast(toks, a, b); }
    TidyJoin(Said(toks, a, b), Said(toks, b, c));
  }

  /** What is said around a comma. */
  lemma SaidComma(toks: seq<Token>, a: nat, b: nat, c: nat)
    requires a < b < c <= |toks| && KindAt(toks, b) == Comma && KindAt(toks, b - 1) != Comma
    ensures Tidy(Said(toks, a, c)) == Tidy(Said(toks, a, b)) + Tidy([Mark(Comma)] + Said(toks, b + 1, c))
  {
    SaidJoin(toks, a, b, c);
    SaidJoin(toks, b, b + 1, c);
    SaidOne(toks, b);
    SaidLast(toks, a, b);
    TidyJoin(Said(toks, a, b), Said(toks, b, c));
  }

  /** What is said around a comma that something follows. */
  lemma SaidBoth(toks: seq<Token>, a: nat, b: nat, c: nat)
    requires a < b && b + 1 < c <= |toks| && KindAt(toks, b) == Comma && KindAt(toks, b - 1) != Comma
    requires KindAt(toks, b + 1) != RAngle
    ensures Tidy(Said(toks, a, c)) == Tidy(Said(toks, a, b)) + [Mark(Comma)] + Tidy(Said(toks, b + 1, c))
  {
    SaidComma(toks, a, b, c);
    SaidLast(toks, b + 1, c);
    TidyComma(Said(toks, b + 1, c));
  }

  lemma TidiesComma(toks: seq<Token>, a: nat, b: nat, c: nat, x: seq<Lexeme>, y: seq<Lexeme>)
    requires Tidies(toks, a, b, x) && a < b && KindAt(toks, b) == Comma && Tidies(toks, b + 1, c, y) && b + 1 < c
    ensures Tidies(toks, a, c, x + [Mark(Comma)] + y)
  {
    SaidBoth(toks, a, b, c);
  }

  lemma ListComma(toks: seq<Token>, a: nat, b: nat, c: nat, x: seq<Lexeme>, y: seq<Lexeme>)
    requires Tidies(toks, a, b, x) && a < b && KindAt(toks, b) == Comma && TidiesList(toks, b + 1, c, y)
    ensures TidiesList(toks, a, c, x + [Mark(Comma)] + y)
  {
    SaidBoth(toks, a, b, c + 1);
    assert x + [Mark(Comma)] + (y + [Mark(RAngle)]) == x + [Mark(Comma)] + y + [Mark(RAngle)];
  }

  /** A comma after the last element is not printed. */
  lemma ListTrailing(toks: seq<Token>, a: nat, b: nat, x: seq<Lexeme>)
    requires Tidies(toks, a, b, x) && a < b && KindAt(toks, b) == Comma && b + 1 < |toks|
    requires KindAt(toks, b + 1) == RAngle
    ensures TidiesList(toks, a, b + 1, x)
  {
    SaidComma(toks, a, b, b + 2);
    SaidOne(toks, b + 1);
    TidyTrailing();
    assert [Mark(Comma)] + [Mark(RAngle)] == [Mark(Comma), Mark(RAngle)];
  }

  lemma TidyTrailing()
    ensures Tidy([Mark(Comma), Mark(RAngle)]) == [Mark(RAngle)]
  {
    var tail := [Mark(Comma), Mark(RAngle)];
    assert tail[1..] == [Mark(RAngle)];
    TidyOne(Mark(RAngle));
  }

  lemma ListLast(toks: seq<Token>, a: nat, b: nat, x: seq<Lexeme>)
    requires Tidies(toks, a, b, x) && a < b && KindAt(toks, b) == RAngle
    ensures TidiesList(toks, a, b, x)
  {
    SaidJoin(toks, a, b, b + 1);
    SaidOne(toks, b);
    SaidLast(toks, a, b);
    TidyJoin(Said(toks, a, b), [Mark(RAngle)]);
    TidyOne(Mark(RAngle));
  }

  lemma ListWrapped(toks: seq<Token>, a: nat, b: nat, ls: seq<Lexeme>)
    requires a < |toks| && KindAt(toks, a) == LAngle && TidiesList(toks, a + 1, b, ls) && b + 1 < |toks|
    ensures Tidies(toks, a, b + 1, Wrapped(ls))
  {
    SaidJoin(toks, a, a + 1, b + 1);
    SaidOne(toks, a);
    TidyOne(Mark(LAngle));
    TidyJoin([Mark(LAngle)], Said(toks, a + 1, b + 1));
    assert [Mark(LAngle)] + (ls + [Mark(RAngle)]) == Wrapped(ls);
  }

  lemma CommaBalanced(toks: seq<Token>, a: nat, b: nat, c: nat)
    requires b < |toks| && Balanced(toks, a, b) && KindAt(toks, b) == Comma && Balanced(toks, b + 1, c)
    ensures Balanced(toks, a, c)
  {
    BalancedOne(toks, b);
    BalancedJoin(toks, a, b, b + 1);
    BalancedJoin(toks, a, b + 1, c);
  }

  // ---- Rules of such stretches ----

  type Stretches = iset<(nat, nat, seq<Lexeme>)>

  /** Stretches of a stream that stand for something printed, by where they
      start and end: forms, and lists of forms up to a `>`. */
  datatype Shapes = Shapes(forms: Stretches, lists: Stretches)

  predicate OneRule(toks: seq<Token>, z: Shapes, a: nat) {
    && (a < |toks| ==> (a, a, []) in z.forms)
    && (a + 1 < |toks| && InTypeArgs(KindAt(toks, a)) && KindAt(toks, a) !in {LAngle, RAngle, Comma} ==>
          (a, a + 1, [Bare(toks[a].lex)]) in z.forms)
  }

  predicate JoinRule(z: Shapes, a: nat, b: nat, c: nat, x: seq<Lexeme>, y: seq<Lexeme>) {
    (a, b, x) in z.forms && (b, c, y) in z.forms ==> (a, c, x + y) in z.forms
  }

  predicate CommaRule(toks: seq<Token>, z: Shapes, a: nat, b: nat, c: nat, x: seq<Lexeme>, y: seq<Lexeme>) {
    (a, b, x) in z.forms && a < b < |toks| && KindAt(toks, b) == Comma && b + 1 < c ==>
    && ((b + 1, c, y) in z.forms ==> (a, c, x + [Mark(Comma)] + y) in z.forms)
    && ((b + 1, c, y) in z.lists ==> (a, c, x + [Mark(Comma)] + y) in z.lists)
  }

  predicate LastRule(toks: seq<Token>, z: Shapes, a: nat, b: nat, x: seq<Lexeme>) {
    (a, b, x) in z.forms && a < b < |toks| ==>
    && (KindAt(toks, b) == RAngle ==> (a, b, x) in z.lists)
    && (b + 1 < |toks| && KindAt(toks, b) == Comma && KindAt(toks, b + 1) == RAngle ==> (a, b + 1, x) in z.lists)
  }

  predicate WrapRule(toks: seq<Token>, z: Shapes, a: nat, b: nat, x: seq<Lexeme>) {
    b + 1 < |toks| && a < |toks| && KindAt(toks, a) == LAngle && (a + 1, b, x) in z.lists ==>
      (a, b + 1, Wrapped(x)) in z.forms
  }

  ghost predicate Ruled(toks: seq<Token>, z: Shapes) {
    && (forall a: nat {:trigger OneRule(toks, z, a)} :: OneRule(toks, z, a))
    && (forall a: nat, b: nat, c: nat, x, y {:trigger JoinRule(z, a, b, c, x, y)} :: JoinRule(z, a, b, c, x, y))
    && (forall a: nat, b: nat, c: nat, x, y {:trigger CommaRule(toks, z, a, b, c, x, y)} ::
          CommaRule(toks, z, a, b, c, x, y))
    && (forall a: nat, b: nat, x {:trigger LastRule(toks, z, a, b, x)} :: LastRule(toks, z, a, b, x))
    && (forall a: nat, b: nat, x {:trigger WrapRule(toks, z, a, b, x)} :: WrapRule(toks, z, a, b, x))
  }

  ghost predicate Forms(toks: seq<Token>, a: nat, b: nat, ls: seq<Lexeme>) {
    Tidies(toks, a, b, ls) && Balanced(toks, a, b)
  }

  ghost predicate Lists(toks: seq<Token>, a: nat, b: nat, ls: seq<Lexeme>) {
    TidiesList(toks, a, b, ls) && Balanced(toks, a, b)
  }

  ghost function ShapesOf(toks: seq<Token>): Shapes {
    Shapes(iset a: nat, b: nat, ls | Forms(toks, a, b, ls) :: (a, b, ls),
           iset a: nat, b: nat, ls | Lists(toks, a, b, ls) :: (a, b, ls))
  }

  lemma OneHolds(toks: seq<Token>, a: nat)
    requires a < |toks|
    ensures Forms(toks, a, a, [])
    ensures a + 1 < |toks| && InTypeArgs(KindAt(toks, a)) && KindAt(toks, a) !in {LAngle, RAngle, Comma} ==>
      Forms(toks, a, a + 1, [Bare(toks[a].lex)])
  {
    SaidOne(toks, a);
    TidyOne(Bare(toks[a].lex));
  }

  lemma FormsComma(toks: seq<Token>, a: nat, b: nat, c: nat, x: seq<Lexeme>, y: seq<Lexeme>)
    requires Forms(toks, a, b, x) && a < b && KindAt(toks, b) == Comma && Forms(toks, b + 1, c, y) && b + 1 < c
    ensures Forms(toks, a, c, x + [Mark(Comma)] + y)
  {
    TidiesComma(toks, a, b, c, x, y);
    CommaBalanced(toks, a, b, c);
  }

  lemma ListsComma(toks: seq<Token>, a: nat, b: nat, c: nat, x: seq<Lexeme>, y: seq<Lexeme>)
    requires Forms(toks, a, b, x) && a < b && KindAt(toks, b) == Comma && Lists(toks, b + 1, c, y)
    ensures Lists(toks, a, c, x + [Mark(Comma)] + y)
  {
    ListComma(toks, a, b, c, x, y);
    CommaBalanced(toks, a, b, c);
  }

  lemma CommaHolds(toks: seq<Token>, z: Shapes, a: nat, b: nat, c: nat, x: seq<Lexeme>, y: seq<Lexeme>)
    requires z == ShapesOf(toks)
    ensures CommaRule(toks, z, a, b, c, x, y)
  {
    if (a, b, x) in z.forms && a < b < |toks| && KindAt(toks, b) == Comma && b + 1 < c {
      if (b + 1, c, y) in z.forms { FormsComma(toks, a, b, c, x, y); }
      if (b + 1, c, y) in z.lists { ListsComma(toks, a, b, c, x, y); }
    }
  }

  lemma ListsLast(toks: seq<Token>, a: nat, b: nat, x: seq<Lexeme>)
    requires Forms(toks, a, b, x) && a < b && KindAt(toks, b) == RAngle
    ensures Lists(toks, a, b, x)
  {
    ListLast(toks, a, b, x);
  }

  lemma ListsTrailing(toks: seq<Token>, a: nat, b: nat, x: seq<Lexeme>)
    requires Forms(toks, a, b, x) && a < b && b + 1 < |toks|
    requires KindAt(toks, b) == Comma && KindAt(toks, b + 1) == RAngle
    ensures Lists(toks, a, b + 1, x)
  {
    ListTrailing(toks, a, b, x);
    BalancedOne(toks, b);
    BalancedJoin(toks, a, b, b + 1);
  }

  lemma LastHolds(toks: seq<Token>, z: Shapes, a: nat, b: nat, x: seq<Lexeme>)
    requires z == ShapesOf(toks)
    ensures LastRule(toks, z, a, b, x)
  {
    if (a, b, x) in z.forms && a < b < |toks| {
      if KindAt(toks, b) == RAngle { ListsLast(toks, a, b, x); }
      if b + 1 < |toks| && KindAt(toks, b) == Comma && KindAt(toks, b + 1) == RAngle {
        ListsTrailing(toks, a, b, x);
      }
    }
  }

  lemma JoinHolds(toks: seq<Token>, z: Shapes, a: nat, b: nat, c: nat, x: seq<Lexeme>, y: seq<Lexeme>)
    requires z == ShapesOf(toks)
    ensures JoinRule(z, a, b, c, x, y)
  {
    if (a, b, x) in z.forms && (b, c, y) in z.forms {
      TidiesJoin(toks, a, b, c, x, y);
      BalancedJoin(toks, a, b, c);
    }
  }

  lemma WrapHolds(toks: seq<Token>, z: Shapes, a: nat, b: nat, x: seq<Lexeme>)
    requires z == ShapesOf(toks)
    ensures WrapRule(toks, z, a, b, x)
  {
    if b + 1 < |toks| && a < |toks| && KindAt(toks, a) == LAngle && (a + 1, b, x) in z.lists {
      ListWrapped(toks, a, b, x);
      BalancedWrap(toks, a, b);
    }
  }

  lemma RulesHold(toks: seq<Token>)
    ensures Ruled(toks, ShapesOf(toks))
  {
    var z := ShapesOf(toks);
    forall a: nat ensures OneRule(toks, z, a) { if a < |toks| { OneHolds(toks, a); } }
    forall a: nat, b: nat, c: nat, x, y ensures JoinRule(z, a, b, c, x, y) { JoinHolds(toks, z, a, b, c, x, y); }
    forall a: nat, b: nat, c: nat, x, y ensures CommaRule(toks, z, a, b, c, x, y) {
      CommaHolds(toks, z, a, b, c, x, y);
    }
    forall a: nat, b: nat, x ensures LastRule(toks, z, a, b, x) { LastHolds(toks, z, a, b, x); }
    forall a: nat, b: nat, x ensures WrapRule(toks, z, a, b, x) { WrapHolds(toks, z, a, b, x); }
  }

  // ---- The grammar ----

  lemma {:induction false} NameForms(toks: seq<Token>, z: Shapes, pos: nat)
    requires Ended(toks) && Ruled(toks, z) && pos < |toks| && ParseName(toks, pos).ok
    ensures var r := ParseName(toks, pos);
      r.value != [] && pos < r.pos && (pos, r.pos, PrintName(r.value)) in z.forms
    decreases |toks| - pos
  {
    var r := ParseName(toks, pos);
    assert OneRule(toks, z, pos);
    if KindAt(toks, pos + 1) == Dot {
      NameForms(toks, z, pos + 2);
      var rest := ParseName(toks, pos + 2);
      assert OneRule(toks, z, pos + 1);
      assert JoinRule(z, pos, pos + 1, pos + 2, [toks[pos].lex], [Mark(Dot)]);
      assert JoinRule(z, pos, pos + 2, rest.pos, [toks[pos].lex] + [Mark(Dot)], PrintName(rest.value));
      assert r.value[1..] == rest.value;
      assert [toks[pos].lex] + [Mark(Dot)] == [toks[pos].lex, Mark(Dot)];
    }
  }

  lemma {:induction false} DimsForms(toks: seq<Token>, z: Shapes, pos: nat)
    requires Ended(toks) && Ruled(toks, z) && pos < |toks| && ParseDims(toks, pos).ok
    ensures var r := ParseDims(toks, pos); (pos, r.pos, PrintDims(r.value)) in z.forms
    decreases |toks| - pos
  {
    assert OneRule(toks, z, pos);
    if KindAt(toks, pos) == LBracket {
      DimsForms(toks, z, pos + 2);
      var rest := ParseDims(toks, pos + 2);
      assert OneRule(toks, z, pos + 1);
      assert JoinRule(z, pos, pos + 1, pos + 2, [Mark(LBracket)], [Mark(RBracket)]);
      assert JoinRule(z, pos, pos + 2, rest.pos, [Mark(LBracket)] + [Mark(RBracket)], PrintDims(rest.value));
      assert [Mark(LBracket)] + [Mark(RBracket)] == [Mark(LBracket), Mark(RBracket)];
    }
  }

  /** The suffixes read after a type's base. */
  lemma SuffixForms(toks: seq<Token>, z: Shapes, pos: nat)
    requires Ended(toks) && Ruled(toks, z) && pos < |toks| && ParseDims(toks, pos).ok
    ensures var r := ParseDims(toks, pos);
      (pos, Skip(toks, r.pos, Question), PrintSuffix(r.value, KindAt(toks, r.pos) == Question)) in z.forms
  {
    var r := ParseDims(toks, pos);
    DimsForms(toks, z, pos);
    if KindAt(toks, r.pos) == Question {
      assert OneRule(toks, z, r.pos);
      assert JoinRule(z, pos, r.pos, r.pos + 1, PrintDims(r.value), [Mark(Question)]);
    } else {
      assert PrintDims(r.value) + [] == PrintDims(r.value);
    }
  }

  /** t is a type, read from pos up to e, with its printed form. */
  predicate TypeForm(z: Shapes, pos: nat, t: TypeRef, e: nat) {
    pos < e && Printable(t) && (pos, e, Print(t)) in z.forms
  }

  predicate BaseForm(z: Shapes, pos: nat, t: TypeRef, e: nat) {
    pos < e && Printable(t) && (pos, e, PrintBase(t)) in z.forms
  }

  /** A key and a value, read from pos up to e, with their printed form. */
  predicate PairForm(z: Shapes, pos: nat, t: TypeRef, e: nat) {
    && pos < e && t.MapOf? && Printable(t)
    && (pos, e, Print(t.key) + [Mark(Comma)] + Print(t.value)) in z.forms
  }

  lemma SuffixedForm(z: Shapes, pos: nat, t: TypeRef, m: nat, dims: nat, optional: bool, e: nat)
    requires BaseForm(z, pos, t, m) && m <= e && (m, e, PrintSuffix(dims, optional)) in z.forms
    requires JoinRule(z, pos, m, e, PrintBase(t), PrintSuffix(dims, optional))
    ensures TypeForm(z, pos, WithSuffix(t, dims, optional), e)
  {
  }

  lemma {:induction false} TypeForms(toks: seq<Token>, z: Shapes, table: seq<bool>, pos: nat)
    requires Ended(toks) && Ruled(toks, z) && |table| == |toks| && pos < |toks| && ParseType(toks, table, pos).ok
    ensures var r := ParseType(toks, table, pos); TypeForm(z, pos, r.value, r.pos)
    decreases |toks| - pos, 2
  {
    var base := ParseBase(toks, table, pos);
    BaseForms(toks, z, table, pos);
    SuffixForms(toks, z, base.pos);
    var dims := ParseDims(toks, base.pos);
    var optional, e := KindAt(toks, dims.pos) == Question, Skip(toks, dims.pos, Question);
    assert JoinRule(z, pos, base.pos, e, PrintBase(base.value), PrintSuffix(dims.value, optional));
    SuffixedForm(z, pos, base.value, base.pos, dims.value, optional, e);
  }

  lemma {:induction false} BaseForms(toks: seq<Token>, z: Shapes, table: seq<bool>, pos: nat)
    requires Ended(toks) && Ruled(toks, z) && |table| == |toks| && pos < |toks| && ParseBase(toks, table, pos).ok
    ensures var r := ParseBase(toks, table, pos); BaseForm(z, pos, r.value, r.pos)
    decreases |toks| - pos, 1
  {
    if KindAt(toks, pos) == KwMap { MapForms(toks, z, table, pos); } else { NamedForms(toks, z, table, pos); }
  }

  lemma PairOf(toks: seq<Token>, z: Shapes, pos: nat, k: TypeRef, m: nat, v: TypeRef, e: nat)
    requires Ruled(toks, z) && TypeForm(z, pos, k, m) && m < |toks| && KindAt(toks, m) == Comma
    requires TypeForm(z, m + 1, v, e)
    ensures PairForm(z, pos, MapOf(k, v, 0, false), e)
  {
    assert CommaRule(toks, z, pos, m, e, Print(k), Print(v));
  }

  lemma {:induction false} PairForms(toks: seq<Token>, z: Shapes, table: seq<bool>, pos: nat)
    requires Ended(toks) && Ruled(toks, z) && |table| == |toks| && pos < |toks| && ParsePair(toks, table, pos).ok
    ensures var r := ParsePair(toks, table, pos); PairForm(z, pos, r.value, r.pos)
    decreases |toks| - pos, 3
  {
    var key := ParseType(toks, table, pos);
    TypeForms(toks, z, table, pos);
    TypeForms(toks, z, table, key.pos + 1);
    var value := ParseType(toks, table, key.pos + 1);
    PairOf(toks, z, pos, key.value, key.pos, value.value, value.pos);
  }

  lemma {:induction false} MapForms(toks: seq<Token>, z: Shapes, table: seq<bool>, pos: nat)
    requires Ended(toks) && Ruled(toks, z) && |table| == |toks| && pos < |toks| && KindAt(toks, pos) == KwMap
    requires ParseMap(toks, table, pos).ok
    ensures var r := ParseMap(toks, table, pos); BaseForm(z, pos, r.value, r.pos)
    decreases |toks| - pos, 0
  {
    MapIsPair(toks, table, pos);
    PairForms(toks, z, table, pos + 2);
    var pair := ParsePair(toks, table, pos + 2);
    MapOfPair(toks, z, pos, pair.value, pair.pos);
  }

  /** An unreported map is a pair in angle brackets. */
  lemma MapIsPair(toks: seq<Token>, table: seq<bool>, pos: nat)
    requires Ended(toks) && |table| == |toks| && pos < |toks| && KindAt(toks, pos) == KwMap
    requires ParseMap(toks, table, pos).ok
    ensures KindAt(toks, pos + 1) == LAngle && pos + 2 < |toks|
    ensures var pair := ParsePair(toks, table, pos + 2);
      && pair.ok && KindAt(toks, pair.pos) == RAngle
      && ParseMap(toks, table, pos) == Parsed(pair.value, pair.pos + 1, true)
  {
  }

  lemma MapOfPair(toks: seq<Token>, z: Shapes, pos: nat, t: TypeRef, e: nat)
    requires Ended(toks) && Ruled(toks, z) && PairForm(z, pos + 2, t, e) && e < |toks|
    requires KindAt(toks, pos) == KwMap && KindAt(toks, pos + 1) == LAngle && KindAt(toks, e) == RAngle
    ensures BaseForm(z, pos, t, e + 1)
  {
    MapWrapped(toks, z, pos, e, Print(t.key), Print(t.value));
  }

  lemma MapWrapped(toks: seq<Token>, z: Shapes, pos: nat, e: nat, k: seq<Lexeme>, v: seq<Lexeme>)
    requires Ruled(toks, z) && pos + 2 < e < |toks| - 1
    requires KindAt(toks, pos) == KwMap && KindAt(toks, pos + 1) == LAngle && KindAt(toks, e) == RAngle
    requires (pos + 2, e, k + [Mark(Comma)] + v) in z.forms
    ensures (pos, e + 1, MapLexemes(k, v)) in z.forms
  {
    var inner := k + [Mark(Comma)] + v;
    assert LastRule(toks, z, pos + 2, e, inner);
    assert WrapRule(toks, z, pos + 1, e, inner);
    assert OneRule(toks, z, pos);
    assert JoinRule(z, pos, pos + 1, e + 1, [Mark(KwMap)], Wrapped(inner));
    assert [Mark(KwMap)] + Wrapped(inner) == MapLexemes(k, v);
  }

  lemma {:induction false} NamedForms(toks: seq<Token>, z: Shapes, table: seq<bool>, pos: nat)
    requires Ended(toks) && Ruled(toks, z) && |table| == |toks| && pos < |toks| && ParseNamed(toks, table, pos).ok
    ensures var r := ParseNamed(toks, table, pos); BaseForm(z, pos, r.value, r.pos)
    decreases |toks| - pos, 0
  {
    var name := ParseName(toks, pos);
    NameForms(toks, z, pos);
    if KindAt(toks, name.pos) == LAngle {
      NamedIsList(toks, table, pos);
      var args := ParseArgs(toks, table, name.pos, name.pos + 1);
      ArgsForms(toks, z, table, name.pos, name.pos + 1);
      GenericForm(toks, z, pos, name.value, name.pos, args.value, args.pos);
    }
  }

  /** An unreported generic type is a name and a list in angle brackets. */
  lemma NamedIsList(toks: seq<Token>, table: seq<bool>, pos: nat)
    requires Ended(toks) && |table| == |toks| && pos < |toks| && ParseNamed(toks, table, pos).ok
    requires KindAt(toks, ParseName(toks, pos).pos) == LAngle
    ensures var name := ParseName(toks, pos);
      && name.ok && name.pos + 1 < |toks| && KindAt(toks, name.pos + 1) != RAngle
      && var args := ParseArgs(toks, table, name.pos, name.pos + 1);
         && args.ok && KindAt(toks, args.pos) == RAngle && name.pos + 1 < args.pos
         && ParseNamed(toks, table, pos) ==
              Parsed(Named(NamedRef(name.value, false, args.value), 0, false), args.pos + 1, true)
  {
  }

  lemma GenericForm(toks: seq<Token>, z: Shapes, pos: nat, parts: seq<string>, m: nat, args: seq<TypeRef>, e: nat)
    requires Ruled(toks, z) && pos < m < e < |toks| - 1 && KindAt(toks, m) == LAngle && parts != []
    requires (pos, m, PrintName(parts)) in z.forms && ArgsForm(z, m + 1, args, e)
    ensures BaseForm(z, pos, Named(NamedRef(parts, false, args), 0, false), e + 1)
  {
    assert WrapRule(toks, z, m, e, PrintArgs(args));
    assert JoinRule(z, pos, m, e + 1, PrintName(parts), Wrapped(PrintArgs(args)));
    GenericBase(parts, args);
  }

  lemma GenericBase(parts: seq<string>, args: seq<TypeRef>)
    requires parts != [] && args != [] && PrintableArgs(args)
    ensures var t := Named(NamedRef(parts, false, args), 0, false);
      Printable(t) && PrintBase(t) == PrintName(parts) + Wrapped(PrintArgs(args))
  {
  }

  /** The arguments, read from pos up to the `>` at e, with their printed
      form. */
  predicate ArgsForm(z: Shapes, pos: nat, args: seq<TypeRef>, e: nat) {
    args != [] && PrintableArgs(args) && (pos, e, PrintArgs(args)) in z.lists
  }

  lemma {:induction false} ArgsForms(toks: seq<Token>, z: Shapes, table: seq<bool>, open: nat, pos: nat)
    requires Ended(toks) && Ruled(toks, z) && |table| == |toks| && open < |toks| && pos < |toks|
    requires var r := ParseArgs(toks, table, open, pos); r.ok && KindAt(toks, r.pos) == RAngle
    requires KindAt(toks, pos) != RAngle
    ensures var r := ParseArgs(toks, table, open, pos); ArgsForm(z, pos, r.value, r.pos)
    decreases |toks| - pos, 4
  {
    var arg := ParseType(toks, table, pos);
    ArgStarts(toks, table, open, pos);
    TypeForms(toks, z, table, pos);
    LastArg(toks, z, pos, arg.value, arg.pos);
    if KindAt(toks, arg.pos) != Comma {
      ArgsEnd(toks, table, open, pos);
    } else {
      ArgsGoOn(toks, table, open, pos);
    }
    if KindAt(toks, arg.pos) == Comma && KindAt(toks, arg.pos + 1) != RAngle {
      ArgsForms(toks, z, table, open, arg.pos + 1);
      var rest := ParseArgs(toks, table, open, arg.pos + 1);
      MoreArgs(toks, z, pos, arg.value, arg.pos, rest.value, rest.pos);
    }
  }

  lemma LastArg(toks: seq<Token>, z: Shapes, pos: nat, t: TypeRef, m: nat)
    requires Ruled(toks, z) && TypeForm(z, pos, t, m) && m < |toks|
    ensures KindAt(toks, m) == RAngle ==> ArgsForm(z, pos, [t], m)
    ensures m + 1 < |toks| && KindAt(toks, m) == Comma && KindAt(toks, m + 1) == RAngle ==> ArgsForm(z, pos, [t], m + 1)
  {
    assert LastRule(toks, z, pos, m, Print(t));
  }

  lemma MoreArgs(toks: seq<Token>, z: Shapes, pos: nat, t: TypeRef, m: nat, rest: seq<TypeRef>, e: nat)
    requires Ruled(toks, z) && TypeForm(z, pos, t, m) && m < |toks| && KindAt(toks, m) == Comma
    requires m + 1 < e && ArgsForm(z, m + 1, rest, e)
    ensures ArgsForm(z, pos, [t] + rest, e)
  {
    assert CommaRule(toks, z, pos, m, e, Print(t), PrintArgs(rest));
    assert ([t] + rest)[1..] == rest;
  }

  lemma ArgStarts(toks: seq<Token>, table: seq<bool>, open: nat, pos: nat)
    requires Ended(toks) && |table| == |toks| && open < |toks| && pos < |toks|
    requires var r := ParseArgs(toks, table, open, pos); r.ok && KindAt(toks, r.pos) == RAngle
    requires KindAt(toks, pos) != RAngle
    ensures ParseType(toks, table, pos).ok
  {
  }

  /** After a comma the list goes on, were it only to its closer. */
  lemma ArgsGoOn(toks: seq<Token>, table: seq<bool>, open: nat, pos: nat)
    requires Ended(toks) && |table| == |toks| && open < |toks| && pos < |toks|
    requires var r := ParseArgs(toks, table, open, pos); r.ok && KindAt(toks, r.pos) == RAngle
    requires KindAt(toks, pos) != RAngle && KindAt(toks, ParseType(toks, table, pos).pos) == Comma
    ensures var r, arg := ParseArgs(toks, table, open, pos), ParseType(toks, table, pos);
      && arg.pos + 1 < |toks|
      && var rest := ParseArgs(toks, table, open, arg.pos + 1);
         && rest.ok && KindAt(toks, rest.pos) == RAngle && r == Parsed([arg.value] + rest.value, rest.pos, true)
         && (KindAt(toks, arg.pos + 1) == RAngle ==> r == Parsed([arg.value], arg.pos + 1, true))
  {
    var arg := ParseType(toks, table, pos);
    assert [arg.value] + [] == [arg.value];
  }

  /** Where no comma follows an argument, the closer does. */
  lemma ArgsEnd(toks: seq<Token>, table: seq<bool>, open: nat, pos: nat)
    requires Ended(toks) && |table| == |toks| && open < |toks| && pos < |toks|
    requires var r := ParseArgs(toks, table, open, pos); r.ok && KindAt(toks, r.pos) == RAngle
    requires KindAt(toks, pos) != RAngle && KindAt(toks, ParseType(toks, table, pos).pos) != Comma
    ensures var r, arg := ParseArgs(toks, table, open, pos), ParseType(toks, table, pos);
      r == Parsed([arg.value], arg.pos, true)
  {
    var r, arg := ParseArgs(toks, table, open, pos), ParseType(toks, table, pos);
    if arg.pos != pos && GoesOn(toks, table, table[open], pos) {
      assert !More(toks, table[open], open, arg.pos);
      assert ParseArgs(toks, table, open, arg.pos) == Parsed([], arg.pos, true);
      assert [arg.value] + [] == [arg.value];
    }
  }

  /** A parse that reports nothing has read the printed form of its result, a
      comma before a `>` apart, and every `<` of it is closed in the file. */
  lemma UnreportedIsPrinted(toks: seq<Token>, table: seq<bool>, at: nat)
    requires Ended(toks) && |table| == |toks| && at < |toks| && ParseType(toks, table, at).ok
    ensures var r := ParseType(toks, table, at);
      && Printable(r.value) && Tidy(Said(toks, at, r.pos)) == Print(r.value)
      && forall i :: at <= i < r.pos && KindAt(toks, i) == LAngle ==> IsClosed(toks, i)
  {
    var r := ParseType(toks, table, at);
    RulesHold(toks);
    TypeForms(toks, ShapesOf(toks), table, at);
    assert Forms(toks, at, r.pos, Print(r.value));
    ClosedStays(toks, r.pos, |toks|);
  }
}
