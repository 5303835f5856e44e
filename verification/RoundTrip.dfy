/** Parsing a printed type gives the type back, in any surrounding stream. */
module RoundTrip {
  import opened Ast
  import opened Brackets
  import opened TypeParser

  /** The stream holds the lexemes from position at. */
  ghost predicate Reads(toks: seq<Token>, at: nat, ls: seq<Lexeme>) {
    at + |ls| <= |toks| && forall i :: 0 <= i < |ls| ==> toks[at + i].lex == ls[i]
  }

  lemma ReadsJoin(toks: seq<Token>, at: nat, a: seq<Lexeme>, b: seq<Lexeme>)
    ensures Reads(toks, at, a + b) <==> Reads(toks, at, a) && Reads(toks, at + |a|, b)
  {
    if Reads(toks, at, a + b) {
      forall i | 0 <= i < |a| ensures toks[at + i].lex == a[i] { assert (a + b)[i] == a[i]; }
      forall i | 0 <= i < |b| ensures toks[at + |a| + i].lex == b[i] { assert (a + b)[|a| + i] == b[i]; }
    }
    if Reads(toks, at, a) && Reads(toks, at + |a|, b) {
      forall i | 0 <= i < |a + b| ensures toks[at + i].lex == (a + b)[i] {
        if i >= |a| { assert toks[at + |a| + (i - |a|)].lex == b[i - |a|]; }
      }
    }
  }

  lemma ReadsOne(toks: seq<Token>, at: nat, l: Lexeme)
    ensures Reads(toks, at, [l]) <==> at < |toks| && toks[at].lex == l
  {
    if Reads(toks, at, [l]) { assert toks[at + 0].lex == [l][0]; }
  }

  // ---- The angle brackets of a printed type are closed ----

  /** Between a and b every `<` is closed, and none is left open. */
  ghost predicate Balanced(toks: seq<Token>, a: nat, b: nat) {
    && a <= b <= |toks|
    && AnglesAfter(toks, b).open == AnglesAfter(toks, a).open
    && AnglesAfter(toks, a).closed <= AnglesAfter(toks, b).closed
    && forall i :: a <= i < b && toks[i].lex.kind == LAngle ==> i in AnglesAfter(toks, b).closed
  }

  lemma BalancedJoin(toks: seq<Token>, a: nat, b: nat, c: nat)
    requires Balanced(toks, a, b) && Balanced(toks, b, c)
    ensures Balanced(toks, a, c)
  {
  }

  lemma BalancedOne(toks: seq<Token>, a: nat)
    requires a < |toks| && InTypeArgs(toks[a].lex.kind) && toks[a].lex.kind != LAngle && toks[a].lex.kind != RAngle
    ensures Balanced(toks, a, a + 1)
  {
  }

  lemma BalancedWrap(toks: seq<Token>, a: nat, b: nat)
    requires a < |toks| && toks[a].lex.kind == LAngle && Balanced(toks, a + 1, b)
    requires b < |toks| && toks[b].lex.kind == RAngle
    ensures Balanced(toks, a, b + 1)
  {
    var before := AnglesAfter(toks, a);
    assert AnglesAfter(toks, a + 1) == Angles(before.open + [a], before.closed);
    assert AnglesAfter(toks, b).open == before.open + [a];
    assert AnglesAfter(toks, b + 1) == Angles(before.open, AnglesAfter(toks, b).closed + {a});
  }

  ghost predicate Flat(ls: seq<Lexeme>) {
    forall i :: 0 <= i < |ls| ==> InTypeArgs(ls[i].kind) && ls[i].kind != LAngle && ls[i].kind != RAngle
  }

  lemma FlatFront(toks: seq<Token>, at: nat, ls: seq<Lexeme>)
    requires Reads(toks, at, ls) && Flat(ls) && ls != []
    ensures var last := |ls| - 1; toks[at + last].lex == ls[last] && Reads(toks, at, ls[..last]) && Flat(ls[..last])
  {
  }

  lemma {:induction false} BalancedFlat(toks: seq<Token>, at: nat, ls: seq<Lexeme>)
    requires Reads(toks, at, ls) && Flat(ls)
    ensures Balanced(toks, at, at + |ls|)
  {
    if ls != [] {
      var last := |ls| - 1;
      FlatFront(toks, at, ls);
      BalancedFlat(toks, at, ls[..last]);
      BalancedOne(toks, at + last);
      BalancedJoin(toks, at, at + last, at + |ls|);
    }
  }

  lemma {:induction false} NameFlat(parts: seq<string>)
    requires parts != []
    ensures Flat(PrintName(parts)) && PrintName(parts) != [] && PrintName(parts)[0].kind == Ident
  {
    if |parts| > 1 { NameFlat(parts[1..]); }
  }

  lemma {:induction false} DimsFlat(dims: nat)
    ensures Flat(PrintDims(dims))
  {
    if dims > 0 { DimsFlat(dims - 1); }
  }

  lemma SuffixFlat(dims: nat, optional: bool)
    ensures Flat(PrintSuffix(dims, optional))
  {
    DimsFlat(dims);
  }

  /** The lexemes are balanced wherever a stream holds them. */
  ghost predicate AlwaysBalanced(ls: seq<Lexeme>) {
    forall toks, at: nat :: Reads(toks, at, ls) ==> Balanced(toks, at, at + |ls|)
  }

  lemma FlatAlways(ls: seq<Lexeme>)
    requires Flat(ls)
    ensures AlwaysBalanced(ls)
  {
    forall toks, at: nat | Reads(toks, at, ls) ensures Balanced(toks, at, at + |ls|) { BalancedFlat(toks, at, ls); }
  }

  lemma JoinAlways(a: seq<Lexeme>, b: seq<Lexeme>)
    requires AlwaysBalanced(a) && AlwaysBalanced(b)
    ensures AlwaysBalanced(a + b)
  {
    forall toks, at: nat | Reads(toks, at, a + b) ensures Balanced(toks, at, at + |a + b|) {
      ReadsJoin(toks, at, a, b);
      BalancedJoin(toks, at, at + |a|, at + |a| + |b|);
    }
  }

  function Wrapped(inner: seq<Lexeme>): seq<Lexeme> { [Mark(LAngle)] + inner + [Mark(RAngle)] }

  /** A list in angle brackets is balanced when what it holds is. */
  lemma WrapAlways(inner: seq<Lexeme>)
    requires AlwaysBalanced(inner)
    ensures AlwaysBalanced(Wrapped(inner))
  {
    forall toks, at: nat | Reads(toks, at, Wrapped(inner)) ensures Balanced(toks, at, at + |Wrapped(inner)|) {
      WrapReads(toks, at, inner);
      BalancedWrap(toks, at, at + 1 + |inner|);
    }
  }

  lemma WrapReads(toks: seq<Token>, at: nat, inner: seq<Lexeme>)
    requires Reads(toks, at, Wrapped(inner))
    ensures at + 1 + |inner| < |toks| && Reads(toks, at + 1, inner)
    ensures toks[at].lex.kind == LAngle && toks[at + 1 + |inner|].lex.kind == RAngle
  {
    ReadsJoin(toks, at, [Mark(LAngle)] + inner, [Mark(RAngle)]);
    ReadsJoin(toks, at, [Mark(LAngle)], inner);
    ReadsOne(toks, at, Mark(LAngle));
    ReadsOne(toks, at + 1 + |inner|, Mark(RAngle));
  }

  /** A printed type leaves no `<` open, whatever surrounds it. */
  lemma {:induction false} PrintBalanced(t: TypeRef)
    requires Nameable(t)
    ensures AlwaysBalanced(Print(t))
    decreases t
  {
    match t {
      case MapOf(k, v, _, _) =>
        PrintBalanced(k);
        PrintBalanced(v);
        MapBalanced(t);
      case Named(n, _, _) =>
        NameFlat(n.parts);
        FlatAlways(PrintName(n.parts));
        if n.args != [] {
          ArgsBalanced(n.args);
          WrapAlways(PrintArgs(n.args));
          JoinAlways(PrintName(n.parts), Wrapped(PrintArgs(n.args)));
          assert PrintBase(t) == PrintName(n.parts) + Wrapped(PrintArgs(n.args));
        }
    }
    SuffixFlat(t.dims, t.optional);
    FlatAlways(PrintSuffix(t.dims, t.optional));
    JoinAlways(PrintBase(t), PrintSuffix(t.dims, t.optional));
  }

  lemma MapBalanced(t: TypeRef)
    requires t.MapOf? && Nameable(t) && AlwaysBalanced(Print(t.key)) && AlwaysBalanced(Print(t.value))
    ensures AlwaysBalanced(PrintBase(t))
  {
    var k, v := Print(t.key), Print(t.value);
    MapAlways(k, v);
    assert PrintBase(t) == [Mark(KwMap)] + Wrapped(k + [Mark(Comma)] + v);
  }

  lemma MapAlways(k: seq<Lexeme>, v: seq<Lexeme>)
    requires AlwaysBalanced(k) && AlwaysBalanced(v)
    ensures AlwaysBalanced([Mark(KwMap)] + Wrapped(k + [Mark(Comma)] + v))
  {
    FlatAlways([Mark(KwMap)]);
    FlatAlways([Mark(Comma)]);
    JoinAlways(k, [Mark(Comma)]);
    JoinAlways(k + [Mark(Comma)], v);
    WrapAlways(k + [Mark(Comma)] + v);
    JoinAlways([Mark(KwMap)], Wrapped(k + [Mark(Comma)] + v));
  }

  lemma {:induction false} ArgsBalanced(args: seq<TypeRef>)
    requires args != [] && NameableArgs(args)
    ensures AlwaysBalanced(PrintArgs(args))
    decreases args
  {
    PrintBalanced(args[0]);
    if |args| > 1 {
      ArgsBalanced(args[1..]);
      FlatAlways([Mark(Comma)]);
      JoinAlways(Print(args[0]), [Mark(Comma)]);
      JoinAlways(Print(args[0]) + [Mark(Comma)], PrintArgs(args[1..]));
    }
  }

  lemma {:induction false} ClosedStays(toks: seq<Token>, a: nat, b: nat)
    requires a <= b <= |toks|
    ensures AnglesAfter(toks, a).closed <= AnglesAfter(toks, b).closed
    decreases b
  {
    if a < b { ClosedStays(toks, a, b - 1); }
  }

  /** Every `<` of a printed type is closed in the file that holds it. */
  lemma PrintedAnglesClosed(toks: seq<Token>, t: TypeRef, at: nat, i: nat)
    requires Nameable(t) && Reads(toks, at, Print(t)) && at <= i < at + |Print(t)| && toks[i].lex.kind == LAngle
    ensures IsClosed(toks, i)
  {
    PrintBalanced(t);
    ClosedStays(toks, at + |Print(t)|, |toks|);
  }

  // ---- Reading a printed type back ----

  /** No reference of t is marked as a type parameter's, as in a parsed type. */
  predicate Unmarked(t: TypeRef) {
    match t
    case MapOf(k, v, _, _) => Unmarked(k) && Unmarked(v)
    case Named(n, _, _) => !n.param && UnmarkedArgs(n.args)
  }

  predicate UnmarkedArgs(args: seq<TypeRef>) {
    args == [] || (Unmarked(args[0]) && UnmarkedArgs(args[1..]))
  }

  /** A type that may be printed and parsed. */
  predicate Printable(t: TypeRef) { Nameable(t) && Unmarked(t) }

  predicate PrintableArgs(args: seq<TypeRef>) { NameableArgs(args) && UnmarkedArgs(args) }

  /** No token that would continue a type. */
  predicate EndsType(k: Kind) { k != Dot && k != LAngle && k != LBracket && k != Question }

  /** The lexemes stand at `at`, a token follows them, and every `<` among
      them is marked closed. */
  ghost predicate Holds(toks: seq<Token>, table: seq<bool>, at: nat, ls: seq<Lexeme>) {
    && Ended(toks) && |table| == |toks| && at + |ls| < |toks| && Reads(toks, at, ls)
    && forall i :: 0 <= i < |ls| && ls[i].kind == LAngle ==> table[at + i]
  }

  lemma HoldsJoin(toks: seq<Token>, table: seq<bool>, at: nat, a: seq<Lexeme>, b: seq<Lexeme>)
    requires Holds(toks, table, at, a + b)
    ensures Holds(toks, table, at, a) && Holds(toks, table, at + |a|, b)
  {
    ReadsJoin(toks, at, a, b);
    forall i | 0 <= i < |a| && a[i].kind == LAngle ensures table[at + i] { assert (a + b)[i] == a[i]; }
    forall i | 0 <= i < |b| && b[i].kind == LAngle ensures table[at + |a| + i] { assert (a + b)[|a| + i] == b[i]; }
  }

  lemma HoldsOne(toks: seq<Token>, table: seq<bool>, at: nat, l: Lexeme)
    requires Holds(toks, table, at, [l])
    ensures at + 1 < |toks| && toks[at].lex == l && (l.kind == LAngle ==> table[at])
  {
    assert toks[at + 0].lex == [l][0];
    if l.kind == LAngle { assert [l][0].kind == LAngle && table[at + 0]; }
  }

  lemma {:induction false} NameReads(toks: seq<Token>, table: seq<bool>, at: nat, parts: seq<string>)
    requires parts != [] && Holds(toks, table, at, PrintName(parts))
    requires KindAt(toks, at + |PrintName(parts)|) != Dot
    ensures ParseName(toks, at) == Parsed(parts, at + |PrintName(parts)|, true)
    decreases |parts|
  {
    assert toks[at + 0].lex == PrintName(parts)[0];
    if |parts| == 1 {
      assert ParseNameTail(toks, at + 1) == Parsed([], at + 1, true);
      assert parts == [parts[0]] + [];
    } else {
      HoldsJoin(toks, table, at, [Lexeme(Ident, parts[0]), Mark(Dot)], PrintName(parts[1..]));
      assert toks[at + 1].lex == PrintName(parts)[1];
      NameReads(toks, table, at + 2, parts[1..]);
      assert ParseNameTail(toks, at + 1) == ParseName(toks, at + 2);
      assert [parts[0]] + parts[1..] == parts;
    }
  }

  lemma {:induction false} DimsReads(toks: seq<Token>, table: seq<bool>, at: nat, dims: nat)
    requires Holds(toks, table, at, PrintDims(dims)) && KindAt(toks, at + |PrintDims(dims)|) != LBracket
    ensures ParseDims(toks, at) == Parsed(dims, at + |PrintDims(dims)|, true)
    decreases dims
  {
    if dims > 0 {
      HoldsJoin(toks, table, at, [Mark(LBracket), Mark(RBracket)], PrintDims(dims - 1));
      assert toks[at + 0].lex == PrintDims(dims)[0] && toks[at + 1].lex == PrintDims(dims)[1];
      DimsReads(toks, table, at + 2, dims - 1);
    }
  }

  /** A printed type starts with a name or the word map. */
  lemma PrintStarts(t: TypeRef)
    requires Nameable(t)
    ensures Print(t) != [] && (Print(t)[0].kind == Ident || Print(t)[0].kind == KwMap)
  {
    if t.Named? { NameFlat(t.ref.parts); }
  }

  /** Suffixes after the base of a type are read back. */
  lemma SuffixReads(toks: seq<Token>, table: seq<bool>, at: nat, t: TypeRef)
    requires Holds(toks, table, at, PrintSuffix(t.dims, t.optional))
    requires EndsType(KindAt(toks, at + |PrintSuffix(t.dims, t.optional)|))
    ensures ParseDims(toks, at) == Parsed(t.dims, at + |PrintDims(t.dims)|, true)
    ensures (KindAt(toks, at + |PrintDims(t.dims)|) == Question) == t.optional
  {
    var mark := if t.optional then [Mark(Question)] else [];
    HoldsJoin(toks, table, at, PrintDims(t.dims), mark);
    if t.optional { HoldsOne(toks, table, at + |PrintDims(t.dims)|, Mark(Question)); }
    DimsReads(toks, table, at, t.dims);
  }

  /** The base of t, without suffixes. */
  function Base(t: TypeRef): TypeRef { WithSuffix(t, 0, false) }

  /** What is read of a type whose base ends at m and suffixes at e. */
  lemma TypeFrom(toks: seq<Token>, table: seq<bool>, at: nat, t: TypeRef, m: nat, e: nat)
    requires Ended(toks) && |table| == |toks| && at < |toks| && m < |toks| && e < |toks|
    requires ParseBase(toks, table, at) == Parsed(Base(t), m, true) && ParseDims(toks, m) == Parsed(t.dims, e, true)
    requires (KindAt(toks, e) == Question) == t.optional
    ensures ParseType(toks, table, at) == Parsed(t, if t.optional then e + 1 else e, true)
  {
  }

  /** A type whose base ends at m is read with its suffixes. */
  lemma TypeReads(toks: seq<Token>, table: seq<bool>, at: nat, t: TypeRef, m: nat)
    requires at < |toks| && Holds(toks, table, m, PrintSuffix(t.dims, t.optional))
    requires EndsType(KindAt(toks, m + |PrintSuffix(t.dims, t.optional)|))
    requires ParseBase(toks, table, at) == Parsed(Base(t), m, true)
    ensures ParseType(toks, table, at) == Parsed(t, m + |PrintSuffix(t.dims, t.optional)|, true)
  {
    SuffixReads(toks, table, m, t);
    TypeFrom(toks, table, at, t, m, m + |PrintDims(t.dims)|);
  }

  /** After the base of a printed type no dot or `<` follows. */
  lemma BaseEnds(toks: seq<Token>, table: seq<bool>, at: nat, base: seq<Lexeme>, dims: nat, optional: bool)
    requires Holds(toks, table, at, base + PrintSuffix(dims, optional))
    requires EndsType(KindAt(toks, at + |base| + |PrintSuffix(dims, optional)|))
    ensures Holds(toks, table, at, base) && Holds(toks, table, at + |base|, PrintSuffix(dims, optional))
    ensures KindAt(toks, at + |base|) != Dot && KindAt(toks, at + |base|) != LAngle
  {
    var suffix := PrintSuffix(dims, optional);
    HoldsJoin(toks, table, at, base, suffix);
    if suffix != [] { assert toks[at + |base| + 0].lex == suffix[0]; }
  }

  /** Parsing a printed type, every `<` of it closed, gives it back. */
  lemma {:induction false} ParsePrinted(toks: seq<Token>, table: seq<bool>, at: nat, t: TypeRef)
    requires Printable(t) && Holds(toks, table, at, Print(t)) && EndsType(KindAt(toks, at + |Print(t)|))
    ensures ParseType(toks, table, at) == Parsed(t, at + |Print(t)|, true)
    decreases t, 1
  {
    BaseEnds(toks, table, at, PrintBase(t), t.dims, t.optional);
    if t.MapOf? { MapReads(toks, table, at, t); } else { NamedReads(toks, table, at, t); }
    TypeReads(toks, table, at, t, at + |PrintBase(t)|);
  }

  /** What is read of a key that ends at m and a value that ends at e. */
  lemma PairFrom(toks: seq<Token>, table: seq<bool>, at: nat, k: TypeRef, v: TypeRef, m: nat, e: nat)
    requires Ended(toks) && |table| == |toks| && at <= m < e < |toks|
    requires ParseType(toks, table, at) == Parsed(k, m, true) && KindAt(toks, m) == Comma
    requires ParseType(toks, table, m + 1) == Parsed(v, e, true)
    ensures ParsePair(toks, table, at) == Parsed(MapOf(k, v, 0, false), e, true)
  {
  }

  /** What is read of a map whose value ends at e. */
  lemma MapFrom(toks: seq<Token>, table: seq<bool>, at: nat, t: TypeRef, e: nat)
    requires Ended(toks) && |table| == |toks| && at + 2 <= e < |toks|
    requires KindAt(toks, at) == KwMap && KindAt(toks, at + 1) == LAngle
    requires ParsePair(toks, table, at + 2) == Parsed(t, e, true) && KindAt(toks, e) == RAngle
    ensures ParseBase(toks, table, at) == Parsed(t, e + 1, true)
  {
  }

  /** Where the parts of a printed map stand. */
  lemma MapHolds(toks: seq<Token>, table: seq<bool>, at: nat, k: seq<Lexeme>, v: seq<Lexeme>)
    requires Holds(toks, table, at, [Mark(KwMap), Mark(LAngle)] + k + [Mark(Comma)] + v + [Mark(RAngle)])
    ensures at + 4 + |k| + |v| < |toks| && KindAt(toks, at) == KwMap && KindAt(toks, at + 1) == LAngle
    ensures Holds(toks, table, at + 2, k) && KindAt(toks, at + 2 + |k|) == Comma
    ensures Holds(toks, table, at + 3 + |k|, v) && KindAt(toks, at + 3 + |k| + |v|) == RAngle
  {
    var head := [Mark(KwMap), Mark(LAngle)];
    HoldsJoin(toks, table, at, head + k + [Mark(Comma)] + v, [Mark(RAngle)]);
    HoldsJoin(toks, table, at, head + k + [Mark(Comma)], v);
    HoldsJoin(toks, table, at, head + k, [Mark(Comma)]);
    HoldsJoin(toks, table, at, head, k);
    assert toks[at + 0].lex == head[0] && toks[at + 1].lex == head[1];
    HoldsOne(toks, table, at + 2 + |k|, Mark(Comma));
    HoldsOne(toks, table, at + 3 + |k| + |v|, Mark(RAngle));
  }

  function MapLexemes(k: seq<Lexeme>, v: seq<Lexeme>): seq<Lexeme> {
    [Mark(KwMap), Mark(LAngle)] + k + [Mark(Comma)] + v + [Mark(RAngle)]
  }

  lemma {:induction false} KeyReads(toks: seq<Token>, table: seq<bool>, at: nat, k: TypeRef, v: seq<Lexeme>)
    requires Printable(k) && Holds(toks, table, at, MapLexemes(Print(k), v))
    ensures ParseType(toks, table, at + 2) == Parsed(k, at + 2 + |Print(k)|, true)
    decreases k, 2
  {
    MapHolds(toks, table, at, Print(k), v);
    ParsePrinted(toks, table, at + 2, k);
  }

  lemma {:induction false} ValueReads(toks: seq<Token>, table: seq<bool>, at: nat, k: seq<Lexeme>, v: TypeRef)
    requires Printable(v) && Holds(toks, table, at, MapLexemes(k, Print(v)))
    ensures ParseType(toks, table, at + 3 + |k|) == Parsed(v, at + 3 + |k| + |Print(v)|, true)
    decreases v, 2
  {
    MapHolds(toks, table, at, k, Print(v));
    ParsePrinted(toks, table, at + 3 + |k|, v);
  }

  lemma {:induction false} MapReads(toks: seq<Token>, table: seq<bool>, at: nat, t: TypeRef)
    requires t.MapOf? && Printable(t) && Holds(toks, table, at, PrintBase(t))
    ensures ParseBase(toks, table, at) == Parsed(Base(t), at + |PrintBase(t)|, true)
    decreases t, 0
  {
    var k, v := Print(t.key), Print(t.value);
    MapHolds(toks, table, at, k, v);
    KeyReads(toks, table, at, t.key, v);
    ValueReads(toks, table, at, k, t.value);
    MapParts(toks, table, at, t.key, t.value, at + 2 + |k|, at + 3 + |k| + |v|);
    assert PrintBase(t) == MapLexemes(k, v);
  }

  /** What is read of a map whose key ends at m and whose value ends at e. */
  lemma MapParts(toks: seq<Token>, table: seq<bool>, at: nat, k: TypeRef, v: TypeRef, m: nat, e: nat)
    requires Ended(toks) && |table| == |toks| && at + 2 <= m < e < |toks|
    requires KindAt(toks, at) == KwMap && KindAt(toks, at + 1) == LAngle && KindAt(toks, m) == Comma
    requires ParseType(toks, table, at + 2) == Parsed(k, m, true)
    requires ParseType(toks, table, m + 1) == Parsed(v, e, true) && KindAt(toks, e) == RAngle
    ensures ParseBase(toks, table, at) == Parsed(MapOf(k, v, 0, false), e + 1, true)
  {
    PairFrom(toks, table, at + 2, k, v, m, e);
    MapFrom(toks, table, at, MapOf(k, v, 0, false), e);
  }

  /** Where the parts of a printed generic type stand. */
  lemma GenericHolds(toks: seq<Token>, table: seq<bool>, at: nat, name: seq<Lexeme>, args: seq<Lexeme>)
    requires Holds(toks, table, at, name + [Mark(LAngle)] + args + [Mark(RAngle)])
    ensures Holds(toks, table, at, name) && at + |name| + |args| + 2 < |toks|
    ensures KindAt(toks, at + |name|) == LAngle && table[at + |name|]
    ensures Holds(toks, table, at + |name| + 1, args) && KindAt(toks, at + |name| + 1 + |args|) == RAngle
  {
    HoldsJoin(toks, table, at, name + [Mark(LAngle)] + args, [Mark(RAngle)]);
    HoldsJoin(toks, table, at, name + [Mark(LAngle)], args);
    HoldsJoin(toks, table, at, name, [Mark(LAngle)]);
    HoldsOne(toks, table, at + |name|, Mark(LAngle));
    HoldsOne(toks, table, at + |name| + 1 + |args|, Mark(RAngle));
  }

  /** What is read of a generic type whose arguments end at e. */
  lemma GenericFrom(toks: seq<Token>, table: seq<bool>, at: nat, parts: seq<string>, args: seq<TypeRef>, open: nat,
                    e: nat)
    requires Ended(toks) && |table| == |toks| && at <= open < e < |toks|
    requires KindAt(toks, at) == Ident && ParseName(toks, at) == Parsed(parts, open, true)
    requires KindAt(toks, open) == LAngle
    requires KindAt(toks, open + 1) != RAngle
    requires ParseArgs(toks, table, open, open + 1) == Parsed(args, e, true) && KindAt(toks, e) == RAngle
    ensures ParseBase(toks, table, at) == Parsed(Named(NamedRef(parts, false, args), 0, false), e + 1, true)
  {
  }

  lemma {:induction false} NamedReads(toks: seq<Token>, table: seq<bool>, at: nat, t: TypeRef)
    requires t.Named? && Printable(t) && Holds(toks, table, at, PrintBase(t))
    requires KindAt(toks, at + |PrintBase(t)|) != Dot && KindAt(toks, at + |PrintBase(t)|) != LAngle
    ensures ParseBase(toks, table, at) == Parsed(Base(t), at + |PrintBase(t)|, true)
    decreases t, 0
  {
    var n := t.ref;
    if n.args == [] {
      PlainReads(toks, table, at, n.parts);
    } else {
      GenericReads(toks, table, at, n.parts, n.args, PrintName(n.parts), PrintArgs(n.args));
    }
  }

  lemma PlainReads(toks: seq<Token>, table: seq<bool>, at: nat, parts: seq<string>)
    requires parts != [] && Holds(toks, table, at, PrintName(parts))
    requires KindAt(toks, at + |PrintName(parts)|) != Dot && KindAt(toks, at + |PrintName(parts)|) != LAngle
    ensures ParseBase(toks, table, at) ==
        Parsed(Named(NamedRef(parts, false, []), 0, false), at + |PrintName(parts)|, true)
  {
    NameFlat(parts);
    assert toks[at + 0].lex == PrintName(parts)[0];
    NameReads(toks, table, at, parts);
  }

  lemma {:induction false} GenericReads(toks: seq<Token>, table: seq<bool>, at: nat, parts: seq<string>,
                                        args: seq<TypeRef>, name: seq<Lexeme>, list: seq<Lexeme>)
    requires parts != [] && args != [] && PrintableArgs(args) && name == PrintName(parts) && list == PrintArgs(args)
    requires Holds(toks, table, at, name + [Mark(LAngle)] + list + [Mark(RAngle)])
    ensures ParseBase(toks, table, at)
         == Parsed(Named(NamedRef(parts, false, args), 0, false), at + |name| + |list| + 2, true)
    decreases args, 2
  {
    var open := at + |name|;
    NameFlat(parts);
    GenericHolds(toks, table, at, name, list);
    assert toks[at + 0].lex == name[0];
    NameReads(toks, table, at, parts);
    ArgsRead(toks, table, open, open + 1, args);
    ArgsStart(args);
    assert toks[open + 1 + 0].lex == list[0];
    GenericFrom(toks, table, at, parts, args, open, open + 1 + |list|);
  }

  lemma ArgsStart(args: seq<TypeRef>)
    requires args != [] && NameableArgs(args)
    ensures PrintArgs(args) != [] && (PrintArgs(args)[0].kind == Ident || PrintArgs(args)[0].kind == KwMap)
  {
    PrintStarts(args[0]);
  }

  /** What is read of a closed list whose first argument ends at m. */
  lemma ArgsFrom(toks: seq<Token>, table: seq<bool>, open: nat, at: nat, first: TypeRef, m: nat,
                 rest: Parsed<seq<TypeRef>>)
    requires Ended(toks) && |table| == |toks| && open < |toks| && at < m < |toks| && table[open]
    requires KindAt(toks, at) != RAngle && KindAt(toks, at) != EOF
    requires ParseType(toks, table, at) == Parsed(first, m, true)
    requires KindAt(toks, m) == Comma || KindAt(toks, m) == RAngle
    requires ParseArgs(toks, table, open, Skip(toks, m, Comma)) == rest
    ensures ParseArgs(toks, table, open, at) == Parsed([first] + rest.value, rest.pos, rest.ok)
  {
    assert ParseArg(toks, table, true, at) == Parsed(first, Skip(toks, m, Comma), true);
  }

  /** Where the parts of a printed argument list stand. */
  lemma ArgsHold(toks: seq<Token>, table: seq<bool>, at: nat, first: seq<Lexeme>, rest: seq<Lexeme>)
    requires Holds(toks, table, at, first + [Mark(Comma)] + rest)
    ensures Holds(toks, table, at, first) && KindAt(toks, at + |first|) == Comma
    ensures Holds(toks, table, at + |first| + 1, rest)
  {
    HoldsJoin(toks, table, at, first + [Mark(Comma)], rest);
    HoldsJoin(toks, table, at, first, [Mark(Comma)]);
    HoldsOne(toks, table, at + |first|, Mark(Comma));
  }

  lemma {:induction false} ArgsRead(toks: seq<Token>, table: seq<bool>, open: nat, at: nat, args: seq<TypeRef>)
    requires args != [] && PrintableArgs(args) && Holds(toks, table, at, PrintArgs(args))
    requires open < |toks| && table[open] && KindAt(toks, at + |PrintArgs(args)|) == RAngle
    ensures ParseArgs(toks, table, open, at) == Parsed(args, at + |PrintArgs(args)|, true)
    decreases args, 1
  {
    if |args| == 1 {
      OneArgRead(toks, table, open, at, args[0]);
      assert [args[0]] == args;
    } else {
      ArgsStart(args);
      assert toks[at + 0].lex == PrintArgs(args)[0];
      var first, rest := Print(args[0]), PrintArgs(args[1..]);
      assert PrintArgs(args) == first + [Mark(Comma)] + rest;
      MoreArgsRead(toks, table, open, at, args, first, rest);
    }
  }

  lemma {:induction false} OneArgRead(toks: seq<Token>, table: seq<bool>, open: nat, at: nat, arg: TypeRef)
    requires Printable(arg) && Holds(toks, table, at, Print(arg))
    requires open < |toks| && table[open] && KindAt(toks, at + |Print(arg)|) == RAngle
    ensures ParseArgs(toks, table, open, at) == Parsed([arg], at + |Print(arg)|, true)
    decreases arg, 2
  {
    var end := at + |Print(arg)|;
    PrintStarts(arg);
    assert toks[at + 0].lex == Print(arg)[0];
    ParsePrinted(toks, table, at, arg);
    ArgsFrom(toks, table, open, at, arg, end, Parsed([], end, true));
    assert [arg] + [] == [arg];
  }

  lemma {:induction false} FirstArgRead(toks: seq<Token>, table: seq<bool>, at: nat, arg: TypeRef, rest: seq<Lexeme>)
    requires Printable(arg) && Holds(toks, table, at, Print(arg) + [Mark(Comma)] + rest)
    ensures Print(arg) != [] && KindAt(toks, at + |Print(arg)|) == Comma
    ensures ParseType(toks, table, at) == Parsed(arg, at + |Print(arg)|, true)
    decreases arg, 2
  {
    ArgsHold(toks, table, at, Print(arg), rest);
    ParsePrinted(toks, table, at, arg);
    PrintStarts(arg);
  }

  lemma {:induction false} RestArgsRead(toks: seq<Token>, table: seq<bool>, open: nat, at: nat, first: seq<Lexeme>,
                                        args: seq<TypeRef>)
    requires args != [] && PrintableArgs(args) && Holds(toks, table, at, first + [Mark(Comma)] + PrintArgs(args))
    requires open < |toks| && table[open] && KindAt(toks, at + |first| + 1 + |PrintArgs(args)|) == RAngle
    ensures ParseArgs(toks, table, open, at + |first| + 1) == Parsed(args, at + |first| + 1 + |PrintArgs(args)|, true)
    decreases args, 2
  {
    ArgsHold(toks, table, at, first, PrintArgs(args));
    ArgsRead(toks, table, open, at + |first| + 1, args);
  }

  lemma {:induction false} MoreArgsRead(toks: seq<Token>, table: seq<bool>, open: nat, at: nat, args: seq<TypeRef>,
                                        first: seq<Lexeme>, rest: seq<Lexeme>)
    requires |args| > 1 && PrintableArgs(args) && first == Print(args[0]) && rest == PrintArgs(args[1..])
    requires Holds(toks, table, at, first + [Mark(Comma)] + rest)
    requires open < |toks| && table[open] && KindAt(toks, at + |first| + 1 + |rest|) == RAngle
    requires KindAt(toks, at) != RAngle && KindAt(toks, at) != EOF
    ensures ParseArgs(toks, table, open, at) == Parsed(args, at + |first| + 1 + |rest|, true)
    decreases args, 0
  {
    FirstArgRead(toks, table, at, args[0], rest);
    RestArgsRead(toks, table, open, at, first, args[1..]);
    ArgsFrom(toks, table, open, at, args[0], at + |first|, Parsed(args[1..], at + |first| + 1 + |rest|, true));
    assert [args[0]] + args[1..] == args;
  }

  /** In every stream that holds a printed type, followed by a token that
      continues no type, the parser reads exactly that type and stops there. */
  lemma RoundTripInAnyStream(toks: seq<Token>, table: seq<bool>, at: nat, t: TypeRef)
    requires Printable(t) && Ended(toks) && IsTable(toks, table)
    requires Reads(toks, at, Print(t)) && at + |Print(t)| < |toks| && EndsType(KindAt(toks, at + |Print(t)|))
    ensures ParseType(toks, table, at) == Parsed(t, at + |Print(t)|, true)
  {
    var ls := Print(t);
    forall i | 0 <= i < |ls| && ls[i].kind == LAngle ensures table[at + i] {
      assert toks[at + i].lex == ls[i];
      PrintedAnglesClosed(toks, t, at, at + i);
    }
    ParsePrinted(toks, table, at, t);
  }

  /** A stream of the lexemes alone. */
  function Alone(ls: seq<Lexeme>): seq<Token> {
    seq(|ls|, i requires 0 <= i < |ls| => Token(ls[i], 0)) + [Token(Mark(EOF), 0)]
  }

  /** Two types that print alike are the same type. */
  lemma PrintInjective(t: TypeRef, u: TypeRef)
    requires Printable(t) && Printable(u) && Print(t) == Print(u)
    ensures t == u
  {
    var ls := Print(t);
    var toks := Alone(ls);
    var table := seq(|toks|, i requires 0 <= i < |toks| => IsClosed(toks, i));
    assert Reads(toks, 0, ls);
    assert KindAt(toks, |ls|) == EOF;
    RoundTripInAnyStream(toks, table, 0, t);
    RoundTripInAnyStream(toks, table, 0, u);
  }
}
