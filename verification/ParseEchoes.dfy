/** On every stream, malformed or not, the type a parse yields holds exactly
    what the parse consumed. */
module ParseEchoes {
  import opened Ast
  import opened Brackets
  import opened TypeParser

  /** A token that leaves its mark on a type: a name, the word map, `[` or `?`. */
  predicate Telling(k: Kind) { k in {Ident, KwMap, LBracket, Question} }

  /** The telling tokens from a up to b, a name with its text. */
  function Told(toks: seq<Token>, a: nat, b: nat): seq<Lexeme>
    requires a <= b <= |toks|
  {
    if a == b then []
    else
      var l := toks[b - 1].lex;
      Told(toks, a, b - 1) +
      if l.kind == Ident then [l] else if Telling(l.kind) then [Mark(l.kind)] else []
  }

  function NameTold(parts: seq<string>): seq<Lexeme> {
    seq(|parts|, i requires 0 <= i < |parts| => Lexeme(Ident, parts[i]))
  }

  function SuffixTold(dims: nat, optional: bool): seq<Lexeme> {
    seq(dims, _ => Mark(LBracket)) + if optional then [Mark(Question)] else []
  }

  /** What a type tells, in the order it is written. */
  function TypeTold(t: TypeRef): seq<Lexeme> {
    match t
    case MapOf(k, v, a, o) => [Mark(KwMap)] + TypeTold(k) + TypeTold(v) + SuffixTold(a, o)
    case Named(n, a, o) => NameTold(n.parts) + ArgsTold(n.args) + SuffixTold(a, o)
  }

  function ArgsTold(args: seq<TypeRef>): seq<Lexeme> {
    if args == [] then [] else TypeTold(args[0]) + ArgsTold(args[1..])
  }

  lemma {:induction false} ToldJoin(toks: seq<Token>, a: nat, b: nat, c: nat)
    requires a <= b <= c <= |toks|
    ensures Told(toks, a, c) == Told(toks, a, b) + Told(toks, b, c)
  {
    if b < c { ToldJoin(toks, a, b, c - 1); }
  }

  function OneTold(l: Lexeme): seq<Lexeme> {
    if l.kind == Ident then [l] else if Telling(l.kind) then [Mark(l.kind)] else []
  }

  lemma ToldOne(toks: seq<Token>, a: nat)
    requires a < |toks|
    ensures Told(toks, a, a + 1) == OneTold(toks[a].lex)
  {
    assert Told(toks, a, a) == [];
  }

  // ---- Rules of what is told ----

  /** What is told from one position up to another. */
  type Teller = (nat, nat) -> seq<Lexeme>

  ghost predicate JoinRule(toks: seq<Token>, f: Teller, a: nat, b: nat, c: nat) {
    a <= b <= c <= |toks| ==> f(a, c) == f(a, b) + f(b, c)
  }

  ghost predicate OneRule(toks: seq<Token>, f: Teller, a: nat) {
    (a <= |toks| ==> f(a, a) == []) && (a < |toks| ==> f(a, a + 1) == OneTold(toks[a].lex))
  }

  ghost predicate Ruled(toks: seq<Token>, f: Teller) {
    && (forall a: nat, b: nat, c: nat {:trigger JoinRule(toks, f, a, b, c)} :: JoinRule(toks, f, a, b, c))
    && (forall a: nat {:trigger OneRule(toks, f, a)} :: OneRule(toks, f, a))
  }

  /** What is told of three stretches one after the other. */
  lemma Three(toks: seq<Token>, f: Teller, a: nat, b: nat, c: nat, d: nat)
    requires Ruled(toks, f) && a <= b <= c <= d <= |toks|
    ensures f(a, d) == f(a, b) + f(b, c) + f(c, d)
  {
    assert JoinRule(toks, f, a, b, c);
    assert JoinRule(toks, f, a, c, d);
  }

  /** A skipped token that tells nothing. */
  lemma Skipped(toks: seq<Token>, f: Teller, pos: nat, k: Kind)
    requires Ended(toks) && Ruled(toks, f) && pos < |toks| && k != EOF && !Telling(k)
    ensures f(pos, Skip(toks, pos, k)) == []
  {
    assert OneRule(toks, f, pos);
  }

  lemma Empty(toks: seq<Token>, f: Teller, pos: nat)
    requires Ruled(toks, f) && pos <= |toks|
    ensures f(pos, pos) == []
  {
    assert OneRule(toks, f, pos);
  }

  // ---- The grammar ----

  lemma DottedComposed(toks: seq<Token>, f: Teller, pos: nat, rest: seq<string>, e: nat)
    requires Ruled(toks, f) && pos + 2 <= e <= |toks| && KindAt(toks, pos) == Ident && KindAt(toks, pos + 1) == Dot
    requires f(pos + 2, e) == NameTold(rest)
    ensures f(pos, e) == NameTold([toks[pos].lex.text] + rest)
  {
    assert OneRule(toks, f, pos) && OneRule(toks, f, pos + 1);
    Three(toks, f, pos, pos + 1, pos + 2, e);
    assert NameTold([toks[pos].lex.text] + rest) == [toks[pos].lex] + [] + NameTold(rest);
  }

  lemma {:induction false} NameEchoes(toks: seq<Token>, f: Teller, pos: nat)
    requires Ended(toks) && Ruled(toks, f) && pos < |toks|
    ensures var r := ParseName(toks, pos); f(pos, r.pos) == NameTold(r.value)
    decreases |toks| - pos
  {
    Empty(toks, f, pos);
    if KindAt(toks, pos) == Ident {
      if KindAt(toks, pos + 1) == Dot {
        NameEchoes(toks, f, pos + 2);
        DottedComposed(toks, f, pos, ParseName(toks, pos + 2).value, ParseName(toks, pos + 2).pos);
      } else {
        LoneName(toks, f, pos);
      }
    }
  }

  lemma LoneName(toks: seq<Token>, f: Teller, pos: nat)
    requires Ruled(toks, f) && pos < |toks| && KindAt(toks, pos) == Ident
    ensures f(pos, pos + 1) == NameTold([toks[pos].lex.text] + [])
  {
    assert OneRule(toks, f, pos);
    assert NameTold([toks[pos].lex.text] + []) == [toks[pos].lex];
  }

  lemma DimsComposed(toks: seq<Token>, f: Teller, pos: nat, next: nat, dims: nat, e: nat)
    requires Ruled(toks, f) && pos + 1 <= next <= e <= |toks| && KindAt(toks, pos) == LBracket
    requires f(pos + 1, next) == [] && f(next, e) == seq(dims, _ => Mark(LBracket))
    ensures f(pos, e) == seq(dims + 1, _ => Mark(LBracket))
  {
    assert OneRule(toks, f, pos);
    Three(toks, f, pos, pos + 1, next, e);
    assert seq(dims + 1, _ => Mark(LBracket)) == [Mark(LBracket)] + [] + seq(dims, _ => Mark(LBracket));
  }

  lemma {:induction false} DimsEcho(toks: seq<Token>, f: Teller, pos: nat)
    requires Ended(toks) && Ruled(toks, f) && pos < |toks|
    ensures var r := ParseDims(toks, pos); f(pos, r.pos) == seq(r.value, _ => Mark(LBracket))
    decreases |toks| - pos
  {
    if KindAt(toks, pos) == LBracket {
      var next := Skip(toks, pos + 1, RBracket);
      DimsEcho(toks, f, next);
      Skipped(toks, f, pos + 1, RBracket);
      DimsComposed(toks, f, pos, next, ParseDims(toks, next).value, ParseDims(toks, next).pos);
    } else {
      Empty(toks, f, pos);
    }
  }

  lemma SuffixEchoes(toks: seq<Token>, f: Teller, pos: nat)
    requires Ended(toks) && Ruled(toks, f) && pos < |toks|
    ensures var r := ParseDims(toks, pos);
      f(pos, Skip(toks, r.pos, Question)) == SuffixTold(r.value, KindAt(toks, r.pos) == Question)
  {
    var r := ParseDims(toks, pos);
    DimsEcho(toks, f, pos);
    assert OneRule(toks, f, r.pos);
    assert JoinRule(toks, f, pos, r.pos, Skip(toks, r.pos, Question));
  }

  /** The base of a type tells what the type does without its suffixes. */
  lemma WithSuffixTold(t: TypeRef, dims: nat, optional: bool)
    requires Unsuffixed(t)
    ensures TypeTold(WithSuffix(t, dims, optional)) == TypeTold(t) + SuffixTold(dims, optional)
  {
    assert SuffixTold(0, false) == [];
    match t
    case MapOf(k, v, _, _) =>
      assert TypeTold(t) == [Mark(KwMap)] + TypeTold(k) + TypeTold(v);
    case Named(n, _, _) =>
      assert TypeTold(t) == NameTold(n.parts) + ArgsTold(n.args);
  }

  predicate Unsuffixed(t: TypeRef) { t.dims == 0 && !t.optional }

  lemma TypeComposed(toks: seq<Token>, f: Teller, pos: nat, t: TypeRef, m: nat, dims: nat, optional: bool, e: nat)
    requires Ruled(toks, f) && pos <= m <= e <= |toks| && Unsuffixed(t)
    requires f(pos, m) == TypeTold(t) && f(m, e) == SuffixTold(dims, optional)
    ensures f(pos, e) == TypeTold(WithSuffix(t, dims, optional))
  {
    assert JoinRule(toks, f, pos, m, e);
    WithSuffixTold(t, dims, optional);
  }

  lemma {:induction false} TypeTells(toks: seq<Token>, f: Teller, table: seq<bool>, pos: nat)
    requires Ended(toks) && Ruled(toks, f) && |table| == |toks| && pos < |toks|
    ensures var r := ParseType(toks, table, pos); f(pos, r.pos) == TypeTold(r.value)
    decreases |toks| - pos, 2
  {
    var base := ParseBase(toks, table, pos);
    BaseTells(toks, f, table, pos);
    SuffixEchoes(toks, f, base.pos);
    var dims := ParseDims(toks, base.pos);
    TypeComposed(toks, f, pos, base.value, base.pos, dims.value, KindAt(toks, dims.pos) == Question,
                 Skip(toks, dims.pos, Question));
  }

  lemma {:induction false} BaseTells(toks: seq<Token>, f: Teller, table: seq<bool>, pos: nat)
    requires Ended(toks) && Ruled(toks, f) && |table| == |toks| && pos < |toks|
    ensures var r := ParseBase(toks, table, pos); Unsuffixed(r.value) && f(pos, r.pos) == TypeTold(r.value)
    decreases |toks| - pos, 1
  {
    if KindAt(toks, pos) == KwMap { MapTells(toks, f, table, pos); } else { NamedTells(toks, f, table, pos); }
  }

  lemma {:induction false} PairTells(toks: seq<Token>, f: Teller, table: seq<bool>, pos: nat)
    requires Ended(toks) && Ruled(toks, f) && |table| == |toks| && pos < |toks|
    ensures var r := ParsePair(toks, table, pos);
      && r.value.MapOf? && Unsuffixed(r.value)
      && f(pos, r.pos) == TypeTold(r.value.key) + TypeTold(r.value.value)
    decreases |toks| - pos, 3
  {
    var key := ParseType(toks, table, pos);
    var next := Skip(toks, key.pos, Comma);
    TypeTells(toks, f, table, pos);
    TypeTells(toks, f, table, next);
    Skipped(toks, f, key.pos, Comma);
    PairComposed(toks, f, pos, key.pos, next, ParseType(toks, table, next).pos);
  }

  lemma PairComposed(toks: seq<Token>, f: Teller, a: nat, b: nat, c: nat, d: nat)
    requires Ruled(toks, f) && a <= b <= c <= d <= |toks| && f(b, c) == []
    ensures f(a, d) == f(a, b) + f(c, d)
  {
    Three(toks, f, a, b, c, d);
  }

  lemma {:induction false} MapTells(toks: seq<Token>, f: Teller, table: seq<bool>, pos: nat)
    requires Ended(toks) && Ruled(toks, f) && |table| == |toks| && pos < |toks| && KindAt(toks, pos) == KwMap
    ensures var r := ParseMap(toks, table, pos); Unsuffixed(r.value) && f(pos, r.pos) == TypeTold(r.value)
    decreases |toks| - pos, 0
  {
    var start := Skip(toks, pos + 1, LAngle);
    var pair := ParsePair(toks, table, start);
    PairTells(toks, f, table, start);
    Skipped(toks, f, pos + 1, LAngle);
    MapEnds(toks, f, table, pos);
    MapComposed(toks, f, pos, start, pair.value, pair.pos, ParseMap(toks, table, pos).pos);
  }

  /** A map is its pair and what closes it. */
  lemma MapEnds(toks: seq<Token>, f: Teller, table: seq<bool>, pos: nat)
    requires Ended(toks) && Ruled(toks, f) && |table| == |toks| && pos < |toks| && KindAt(toks, pos) == KwMap
    ensures var r, pair := ParseMap(toks, table, pos), ParsePair(toks, table, Skip(toks, pos + 1, LAngle));
      r.value == pair.value && pair.pos <= r.pos && f(pair.pos, r.pos) == []
  {
    var pair := ParsePair(toks, table, Skip(toks, pos + 1, LAngle));
    Skipped(toks, f, pair.pos, RAngle);
    Empty(toks, f, pair.pos);
  }

  lemma MapComposed(toks: seq<Token>, f: Teller, pos: nat, start: nat, t: TypeRef, m: nat, e: nat)
    requires Ruled(toks, f) && pos + 1 <= start <= m <= e <= |toks| && KindAt(toks, pos) == KwMap
    requires t.MapOf? && Unsuffixed(t) && f(pos + 1, start) == [] && f(m, e) == []
    requires f(start, m) == TypeTold(t.key) + TypeTold(t.value)
    ensures f(pos, e) == TypeTold(t)
  {
    assert OneRule(toks, f, pos);
    Three(toks, f, pos, pos + 1, start, m);
    assert JoinRule(toks, f, pos, m, e);
    assert SuffixTold(0, false) == [];
    assert [Mark(KwMap)] + [] + (TypeTold(t.key) + TypeTold(t.value)) + []
        == [Mark(KwMap)] + TypeTold(t.key) + TypeTold(t.value) + [];
  }

  lemma {:induction false} NamedTells(toks: seq<Token>, f: Teller, table: seq<bool>, pos: nat)
    requires Ended(toks) && Ruled(toks, f) && |table| == |toks| && pos < |toks|
    ensures var r := ParseNamed(toks, table, pos); Unsuffixed(r.value) && f(pos, r.pos) == TypeTold(r.value)
    decreases |toks| - pos, 0
  {
    var name := ParseName(toks, pos);
    NameEchoes(toks, f, pos);
    if KindAt(toks, name.pos) == LAngle {
      var args := ParseArgs(toks, table, name.pos, name.pos + 1);
      ArgsTell(toks, f, table, name.pos, name.pos + 1);
      Skipped(toks, f, args.pos, RAngle);
      NamedComposed(toks, f, pos, name.value, name.pos, args.value, args.pos, Skip(toks, args.pos, RAngle));
    } else {
      assert NameTold(name.value) + [] + SuffixTold(0, false) == NameTold(name.value);
    }
  }

  lemma NamedComposed(toks: seq<Token>, f: Teller, pos: nat, parts: seq<string>, open: nat, args: seq<TypeRef>, m: nat,
                      e: nat)
    requires Ruled(toks, f) && pos <= open && open + 1 <= m <= e <= |toks| && KindAt(toks, open) == LAngle
    requires f(pos, open) == NameTold(parts) && f(open + 1, m) == ArgsTold(args) && f(m, e) == []
    ensures f(pos, e) == TypeTold(Named(NamedRef(parts, false, args), 0, false))
  {
    assert OneRule(toks, f, open);
    Three(toks, f, pos, open, open + 1, m);
    assert JoinRule(toks, f, pos, m, e);
    assert SuffixTold(0, false) == [];
    assert NameTold(parts) + [] + ArgsTold(args) + [] == NameTold(parts) + ArgsTold(args) + [];
  }

  lemma {:induction false} ArgsTell(toks: seq<Token>, f: Teller, table: seq<bool>, open: nat, pos: nat)
    requires Ended(toks) && Ruled(toks, f) && |table| == |toks| && open < |toks| && pos < |toks|
    ensures var r := ParseArgs(toks, table, open, pos); f(pos, r.pos) == ArgsTold(r.value)
    decreases |toks| - pos, 4
  {
    Empty(toks, f, pos);
    if More(toks, table[open], open, pos) {
      var t := ParseType(toks, table, pos);
      var next := Skip(toks, t.pos, Comma);
      TypeTells(toks, f, table, pos);
      Skipped(toks, f, t.pos, Comma);
      Empty(toks, f, next);
      if next == pos || !GoesOn(toks, table, table[open], pos) {
        ArgsComposed(toks, f, pos, t.value, t.pos, next, [], next);
        assert [t.value] + [] == [t.value];
      } else {
        var rest := ParseArgs(toks, table, open, next);
        ArgsTell(toks, f, table, open, next);
        ArgsComposed(toks, f, pos, t.value, t.pos, next, rest.value, rest.pos);
      }
    }
  }

  lemma ArgsComposed(toks: seq<Token>, f: Teller, pos: nat, t: TypeRef, m: nat, next: nat, rest: seq<TypeRef>, e: nat)
    requires Ruled(toks, f) && pos <= m <= next <= e <= |toks|
    requires f(pos, m) == TypeTold(t) && f(m, next) == [] && f(next, e) == ArgsTold(rest)
    ensures f(pos, e) == ArgsTold([t] + rest)
  {
    PairComposed(toks, f, pos, m, next, e);
    assert ([t] + rest)[1..] == rest;
  }

  function TellerOf(toks: seq<Token>): Teller {
    (a: nat, b: nat) => if a <= b <= |toks| then Told(toks, a, b) else []
  }

  lemma ToldRuled(toks: seq<Token>)
    ensures Ruled(toks, TellerOf(toks))
  {
    forall a: nat, b: nat, c: nat ensures JoinRule(toks, TellerOf(toks), a, b, c) { JoinHolds(toks, a, b, c); }
    forall a: nat ensures OneRule(toks, TellerOf(toks), a) { OneHolds(toks, a); }
  }

  lemma JoinHolds(toks: seq<Token>, a: nat, b: nat, c: nat)
    ensures JoinRule(toks, TellerOf(toks), a, b, c)
  {
    if a <= b <= c <= |toks| { ToldJoin(toks, a, b, c); }
  }

  lemma OneHolds(toks: seq<Token>, a: nat)
    ensures OneRule(toks, TellerOf(toks), a)
  {
    if a < |toks| { ToldOne(toks, a); }
  }

  /** A parse consumes what its result tells: no name, map, pair of brackets or
      `?` is lost, doubled or moved, whatever is wrong with the stream. */
  lemma TypeEchoes(toks: seq<Token>, table: seq<bool>, pos: nat)
    requires Ended(toks) && |table| == |toks| && pos < |toks|
    ensures var r := ParseType(toks, table, pos); Told(toks, pos, r.pos) == TypeTold(r.value)
  {
    ToldRuled(toks);
    TypeTells(toks, TellerOf(toks), table, pos);
  }
}
