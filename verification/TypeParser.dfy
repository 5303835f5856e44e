/** The recursive-descent parser of types: what it reads at each position of
    a token stream, and the parser that moves a cursor to read it. */
module TypeParser {
  import opened Ast
  import opened Brackets

  /** What was read, where the cursor then stands, and whether nothing was
      reported on the way. */
  datatype Parsed<+T> = Parsed(value: T, pos: nat, ok: bool)

  /** A reading after others, reported on or not. */
  function Under<T>(ok: bool, r: Parsed<T>): Parsed<T> { Parsed(r.value, r.pos, ok && r.ok) }

  /** A token stream ends with its EOF token. */
  predicate Ended(toks: seq<Token>) { toks != [] && toks[|toks| - 1].lex.kind == EOF }

  function KindAt(toks: seq<Token>, pos: nat): Kind requires pos < |toks| { toks[pos].lex.kind }

  /** By token index, the brackets of toks that are closed. */
  ghost predicate IsTable(toks: seq<Token>, table: seq<bool>) {
    |table| == |toks| && forall i :: 0 <= i < |toks| ==> (table[i] <==> IsClosed(toks, i))
  }

  /** Whether an element of the list opened at `open` may start at pos. */
  predicate More(toks: seq<Token>, whole: bool, open: nat, pos: nat) requires open < |toks| && pos < |toks| {
    KindAt(toks, pos) != RAngle && KindAt(toks, pos) != EOF && (whole || toks[pos].line == toks[open].line)
  }

  /** The position past a token of kind k at pos, or pos. */
  function Skip(toks: seq<Token>, pos: nat, k: Kind): (r: nat)
    requires Ended(toks) && pos < |toks| && k != EOF
    ensures pos <= r < |toks| && r == (if KindAt(toks, pos) == k then pos + 1 else pos)
  {
    if KindAt(toks, pos) == k then pos + 1 else pos
  }

  /** `a.b.C`; on an error the parts read so far. */
  function ParseName(toks: seq<Token>, pos: nat): (r: Parsed<seq<string>>)
    requires Ended(toks) && pos < |toks|
    ensures pos <= r.pos < |toks|
    decreases |toks| - pos, 1
  {
    if KindAt(toks, pos) != Ident then Parsed([], pos, false)
    else
      var rest := ParseNameTail(toks, pos + 1);
      Parsed([toks[pos].lex.text] + rest.value, rest.pos, rest.ok)
  }

  /** `.b.C` at pos, if a dot stands there. */
  function ParseNameTail(toks: seq<Token>, pos: nat): (r: Parsed<seq<string>>)
    requires Ended(toks) && pos < |toks|
    ensures pos <= r.pos < |toks|
    decreases |toks| - pos, 0
  {
    if KindAt(toks, pos) != Dot then Parsed([], pos, true) else ParseName(toks, pos + 1)
  }

  /** The `[]` suffixes at pos, a missing `]` reported and still counted. */
  function ParseDims(toks: seq<Token>, pos: nat): (r: Parsed<nat>)
    requires Ended(toks) && pos < |toks|
    ensures pos <= r.pos < |toks|
    decreases |toks| - pos
  {
    if KindAt(toks, pos) != LBracket then Parsed(0, pos, true)
    else
      var rest := ParseDims(toks, Skip(toks, pos + 1, RBracket));
      Parsed(rest.value + 1, rest.pos, rest.ok && KindAt(toks, pos + 1) == RBracket)
  }

  function WithSuffix(t: TypeRef, dims: nat, optional: bool): TypeRef {
    match t
    case MapOf(k, v, _, _) => MapOf(k, v, dims, optional)
    case Named(n, _, _) => Named(n, dims, optional)
  }

  /** A map or a named type, then its suffixes. */
  function ParseType(toks: seq<Token>, table: seq<bool>, pos: nat): (r: Parsed<TypeRef>)
    requires Ended(toks) && |table| == |toks| && pos < |toks|
    ensures pos <= r.pos < |toks|
    decreases |toks| - pos, 2
  {
    var base := ParseBase(toks, table, pos);
    var dims := ParseDims(toks, base.pos);
    Parsed(WithSuffix(base.value, dims.value, KindAt(toks, dims.pos) == Question),
           Skip(toks, dims.pos, Question), base.ok && dims.ok)
  }

  function ParseBase(toks: seq<Token>, table: seq<bool>, pos: nat): (r: Parsed<TypeRef>)
    requires Ended(toks) && |table| == |toks| && pos < |toks|
    ensures pos <= r.pos < |toks|
    decreases |toks| - pos, 1
  {
    if KindAt(toks, pos) == KwMap then ParseMap(toks, table, pos) else ParseNamed(toks, table, pos)
  }

  /** `map<K, V>` at the word map. */
  function ParseMap(toks: seq<Token>, table: seq<bool>, pos: nat): (r: Parsed<TypeRef>)
    requires Ended(toks) && |table| == |toks| && pos < |toks| && KindAt(toks, pos) == KwMap
    ensures pos <= r.pos < |toks|
    decreases |toks| - pos, 0
  {
    var angled := KindAt(toks, pos + 1) == LAngle;
    var pair := ParsePair(toks, table, Skip(toks, pos + 1, LAngle));
    Parsed(pair.value, if angled then Skip(toks, pair.pos, RAngle) else pair.pos,
           angled && pair.ok && KindAt(toks, pair.pos) == RAngle)
  }

  /** `K, V`, as a map of them. */
  function ParsePair(toks: seq<Token>, table: seq<bool>, pos: nat): (r: Parsed<TypeRef>)
    requires Ended(toks) && |table| == |toks| && pos < |toks|
    ensures pos <= r.pos < |toks|
    decreases |toks| - pos, 3
  {
    var key := ParseType(toks, table, pos);
    var value := ParseType(toks, table, Skip(toks, key.pos, Comma));
    Parsed(MapOf(key.value, value.value, 0, false), value.pos, key.ok && KindAt(toks, key.pos) == Comma && value.ok)
  }

  /** `User`, `pkg.User` or `Page<User, Org>`. */
  function ParseNamed(toks: seq<Token>, table: seq<bool>, pos: nat): (r: Parsed<TypeRef>)
    requires Ended(toks) && |table| == |toks| && pos < |toks|
    ensures pos <= r.pos < |toks|
    decreases |toks| - pos, 0
  {
    var name := ParseName(toks, pos);
    if KindAt(toks, name.pos) != LAngle then
      Parsed(Named(NamedRef(name.value, false, []), 0, false), name.pos, name.ok)
    else
      var empty := KindAt(toks, name.pos + 1) == RAngle;
      var args := ParseArgs(toks, table, name.pos, name.pos + 1);
      Parsed(Named(NamedRef(name.value, false, args.value), 0, false), Skip(toks, args.pos, RAngle),
             name.ok && !empty && args.ok && KindAt(toks, args.pos) == RAngle)
  }

  /** Nothing is reported between an argument and the token at pos. */
  predicate Separates(toks: seq<Token>, whole: bool, pos: nat) requires pos < |toks| {
    KindAt(toks, pos) == Comma || KindAt(toks, pos) == RAngle || KindAt(toks, pos) == EOF || !whole
  }

  /** One argument and the comma after it. */
  function ParseArg(toks: seq<Token>, table: seq<bool>, whole: bool, pos: nat): (r: Parsed<TypeRef>)
    requires Ended(toks) && |table| == |toks| && pos < |toks|
    ensures pos <= r.pos < |toks|
    decreases |toks| - pos, 3
  {
    var arg := ParseType(toks, table, pos);
    Parsed(arg.value, Skip(toks, arg.pos, Comma), arg.ok && Separates(toks, whole, arg.pos))
  }

  /** The type arguments from pos of the list opened at `open`. */
  function ParseArgs(toks: seq<Token>, table: seq<bool>, open: nat, pos: nat): (r: Parsed<seq<TypeRef>>)
    requires Ended(toks) && |table| == |toks| && open < |toks| && pos < |toks|
    ensures pos <= r.pos < |toks|
    decreases |toks| - pos, 4
  {
    if !More(toks, table[open], open, pos) then Parsed([], pos, true) else
      var arg := ParseArg(toks, table, table[open], pos);
      if arg.pos == pos || !GoesOn(toks, table, table[open], pos) then Parsed([arg.value], arg.pos, arg.ok)
      else
        var rest := ParseArgs(toks, table, open, arg.pos);
        Parsed([arg.value] + rest.value, rest.pos, arg.ok && rest.ok)
  }

  /** The list goes on after the argument at pos: a comma or its closer
      follows, or something closes the list. */
  predicate GoesOn(toks: seq<Token>, table: seq<bool>, whole: bool, pos: nat)
    requires Ended(toks) && |table| == |toks| && pos < |toks|
    decreases |toks| - pos, 3
  {
    var k := KindAt(toks, ParseType(toks, table, pos).pos);
    k == Comma || k == RAngle || k == EOF || whole
  }

  /** The arguments read so far, then those of r. */
  function After(args: seq<TypeRef>, ok: bool, r: Parsed<seq<TypeRef>>): Parsed<seq<TypeRef>> {
    Parsed(args + r.value, r.pos, ok && r.ok)
  }

  lemma AfterArg(args: seq<TypeRef>, ok: bool, arg: TypeRef, argOk: bool, rest: Parsed<seq<TypeRef>>)
    ensures After(args, ok, Parsed([arg] + rest.value, rest.pos, argOk && rest.ok)) ==
        After(args + [arg], ok && argOk, rest)
  {
    assert args + ([arg] + rest.value) == args + [arg] + rest.value;
  }

  // ---- The parser itself ----

  class Parser {
    const tokens: seq<Token>
    const closed: seq<bool>
    var pos: nat
    var ok: bool

    constructor (tokens: seq<Token>)
      requires Ended(tokens)
      ensures Valid() && this.tokens == tokens && IsTable(tokens, closed) && pos == 0 && ok
    {
      var table := ClosedBrackets(tokens);
      this.tokens, closed := tokens, table;
      pos, ok := 0, true;
    }

    ghost predicate Valid() reads this { Ended(tokens) && |closed| == |tokens| && pos < |tokens| }

    /** Moves past a token of kind k, or reports that it is missing. */
    method Expect(k: Kind) returns (text: string, found: bool)
      requires Valid() && k != EOF
      modifies this`pos, this`ok
      ensures Valid() && found == (KindAt(tokens, old(pos)) == k)
      ensures pos == Skip(tokens, old(pos), k) && ok == (old(ok) && found)
      ensures found ==> text == tokens[old(pos)].lex.text
    {
      found := KindAt(tokens, pos) == k;
      text := "";
      if found {
        text := tokens[pos].lex.text;
        pos := pos + 1;
      } else {
        ok := false;
      }
    }

    method ParseQualifiedIdent() returns (parts: seq<string>)
      requires Valid()
      modifies this`pos, this`ok
      ensures Valid() && Parsed(parts, pos, ok) == Under(old(ok), ParseName(tokens, old(pos)))
    {
      parts := [];
      var first, found := Expect(Ident);
      if !found { return; }
      parts := [first];
      ghost var all := ParseName(tokens, old(pos));
      while KindAt(tokens, pos) == Dot
        invariant Valid() && pos > old(pos) && ok == old(ok)
        invariant var rest := ParseNameTail(tokens, pos);
          all.value == parts + rest.value && all.pos == rest.pos && all.ok == rest.ok
        decreases |tokens| - pos
      {
        ghost var rest, parts0 := ParseNameTail(tokens, pos), parts;
        pos := pos + 1;
        var next, more := Expect(Ident);
        if !more {
          assert parts + [] == parts;
          return;
        }
        parts := parts + [next];
        assert parts0 + rest.value == parts + rest.value[1..];
      }
      assert parts + [] == parts;
    }

    method ParseTypeRef() returns (t: TypeRef)
      requires Valid()
      modifies this`pos, this`ok
      ensures Valid() && Parsed(t, pos, ok) == Under(old(ok), ParseType(tokens, closed, old(pos)))
      decreases |tokens| - pos, 1, 1
    {
      t := ParseUnsuffixed();
      var depth := ParseBrackets();
      var optional := KindAt(tokens, pos) == Question;
      if optional { pos := pos + 1; }
      t := WithSuffix(t, depth, optional);
    }

    /** A map or a named type, up to its suffixes. */
    method ParseUnsuffixed() returns (t: TypeRef)
      requires Valid()
      modifies this`pos, this`ok
      ensures Valid() && Parsed(t, pos, ok) == Under(old(ok), ParseBase(tokens, closed, old(pos)))
      decreases |tokens| - pos, 1, 0
    {
      if KindAt(tokens, pos) == KwMap { t := ParseMapType(); } else { t := ParseNamedTypeRef(); }
    }

    /** Counts the `[]` suffixes at the cursor. */
    method ParseBrackets() returns (depth: nat)
      requires Valid()
      modifies this`pos, this`ok
      ensures Valid() && Parsed(depth, pos, ok) == Under(old(ok), ParseDims(tokens, old(pos)))
    {
      depth := 0;
      ghost var all := ParseDims(tokens, pos);
      while KindAt(tokens, pos) == LBracket
        invariant Valid() && old(pos) <= pos
        invariant all.value == depth + ParseDims(tokens, pos).value && all.pos == ParseDims(tokens, pos).pos
        invariant (old(ok) && all.ok) == (ok && ParseDims(tokens, pos).ok)
        decreases |tokens| - pos
      {
        pos := pos + 1;
        var _, found := Expect(RBracket);
        depth := depth + 1;
      }
    }

    method ParseMapType() returns (t: TypeRef)
      requires Valid() && KindAt(tokens, pos) == KwMap
      modifies this`pos, this`ok
      ensures Valid() && Parsed(t, pos, ok) == Under(old(ok), ParseMap(tokens, closed, old(pos)))
      decreases |tokens| - pos, 0
    {
      pos := pos + 1;
      var _, angled := Expect(LAngle);
      t := ParseKeyValue();
      if angled { CloseList(); }
    }

    method ParseKeyValue() returns (t: TypeRef)
      requires Valid()
      modifies this`pos, this`ok
      ensures Valid() && Parsed(t, pos, ok) == Under(old(ok), ParsePair(tokens, closed, old(pos)))
      decreases |tokens| - pos, 2
    {
      var key := ParseTypeRef();
      var _, _ := Expect(Comma);
      var value := ParseTypeRef();
      t := MapOf(key, value, 0, false);
    }

    /** Consumes the closer of a type argument list, or reports its absence. */
    method CloseList()
      requires Valid()
      modifies this`pos, this`ok
      ensures Valid()
      ensures pos == Skip(tokens, old(pos), RAngle) && ok == (old(ok) && KindAt(tokens, old(pos)) == RAngle)
    {
      var _, _ := Expect(RAngle);
    }

    method ParseNamedTypeRef() returns (t: TypeRef)
      requires Valid()
      modifies this`pos, this`ok
      ensures Valid() && Parsed(t, pos, ok) == Under(old(ok), ParseNamed(tokens, closed, old(pos)))
      decreases |tokens| - pos, 0
    {
      var parts := ParseQualifiedIdent();
      var args: seq<TypeRef> := [];
      if KindAt(tokens, pos) == LAngle {
        var open := pos;
        var whole := closed[open];
        pos := pos + 1;
        if KindAt(tokens, pos) == RAngle { ok := false; }
        args := ParseArgList(open, whole);
        CloseList();
      }
      t := Named(NamedRef(parts, false, args), 0, false);
    }

    method ParseArgList(open: nat, whole: bool) returns (args: seq<TypeRef>)
      requires Valid() && open < |tokens| && whole == closed[open]
      modifies this`pos, this`ok
      ensures Valid() && Parsed(args, pos, ok) == Under(old(ok), ParseArgs(tokens, closed, open, old(pos)))
      decreases |tokens| - pos, 3
    {
      args := [];
      ghost var all := ParseArgs(tokens, closed, open, pos);
      assert [] + all.value == all.value;
      while More(tokens, whole, open, pos)
        invariant Valid() && old(pos) <= pos
        invariant Under(old(ok), all) == After(args, ok, ParseArgs(tokens, closed, open, pos))
        decreases |tokens| - pos
      {
        var start := pos;
        ghost var args0, ok0, step := args, ok, ParseArg(tokens, closed, whole, pos);
        ghost var here := ParseArgs(tokens, closed, open, pos);
        var arg, goesOn := NextArg(whole);
        args := args + [arg];
        if !goesOn || pos == start { return; }
        ghost var rest := ParseArgs(tokens, closed, open, pos);
        assert here == Parsed([arg] + rest.value, rest.pos, step.ok && rest.ok);
        AfterArg(args0, ok0, arg, step.ok, rest);
      }
      assert args + [] == args;
    }

    method NextArg(whole: bool) returns (arg: TypeRef, goesOn: bool)
      requires Valid()
      modifies this`pos, this`ok
      ensures Valid() && Parsed(arg, pos, ok) == Under(old(ok), ParseArg(tokens, closed, whole, old(pos)))
      ensures goesOn == GoesOn(tokens, closed, whole, old(pos))
      decreases |tokens| - pos, 2
    {
      arg := ParseTypeRef();
      goesOn := ListSep(whole);
    }

    /** Consumes the `,` after an argument; any other token but the closer
        ends a list nothing closes, else is reported. */
    method ListSep(whole: bool) returns (goesOn: bool)
      requires Valid()
      modifies this`pos, this`ok
      ensures Valid() && pos == Skip(tokens, old(pos), Comma) && ok == (old(ok) && Separates(tokens, whole, old(pos)))
      ensures var k := KindAt(tokens, old(pos)); goesOn <==> k == Comma || k == RAngle || k == EOF || whole
    {
      var k := KindAt(tokens, pos);
      goesOn := true;
      if k == Comma {
        pos := pos + 1;
      } else if k == RAngle || k == EOF {
      } else if !whole {
        goesOn := false;
      } else {
        ok := false;
      }
    }
  }
}
