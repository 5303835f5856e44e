/** How lists of type arguments end: with a comma before the closer, or without
    a closer at all. */
module ListEnds {
  import opened Ast
  import opened Brackets
  import opened TypeParser
  import opened RoundTrip

  // ---- A comma before the closer ----

  /** arg is read from at up to the comma at m. */
  predicate ReadTo(toks: seq<Token>, table: seq<bool>, at: nat, arg: TypeRef, m: nat)
    requires Ended(toks) && |table| == |toks|
  {
    && at < m && m + 1 < |toks| && KindAt(toks, at) != RAngle && KindAt(toks, at) != EOF && KindAt(toks, m) == Comma
    && ParseType(toks, table, at) == Parsed(arg, m, true)
  }

  lemma NothingMore(toks: seq<Token>, table: seq<bool>, open: nat, pos: nat)
    requires Ended(toks) && |table| == |toks| && open < |toks| && pos < |toks| && KindAt(toks, pos) == RAngle
    ensures ParseArgs(toks, table, open, pos) == Parsed([], pos, true)
  {
  }

  /** What is read of a list whose last argument ends at m, before a comma and
      the closer. */
  lemma LastFrom(toks: seq<Token>, table: seq<bool>, open: nat, at: nat, arg: TypeRef, m: nat)
    requires Ended(toks) && |table| == |toks| && open < |toks| && table[open] && ReadTo(toks, table, at, arg, m)
    requires KindAt(toks, m + 1) == RAngle
    ensures ParseArgs(toks, table, open, at) == Parsed([arg], m + 1, true)
  {
    NothingMore(toks, table, open, m + 1);
    ArgsFrom(toks, table, open, at, arg, m, Parsed([], m + 1, true));
    assert [arg] + [] == [arg];
  }

  lemma MoreFrom(toks: seq<Token>, table: seq<bool>, open: nat, at: nat, args: seq<TypeRef>, m: nat, e: nat)
    requires Ended(toks) && |table| == |toks| && open < |toks| && table[open] && args != []
    requires ReadTo(toks, table, at, args[0], m) && ParseArgs(toks, table, open, m + 1) == Parsed(args[1..], e, true)
    ensures ParseArgs(toks, table, open, at) == Parsed(args, e, true)
  {
    ArgsFrom(toks, table, open, at, args[0], m, Parsed(args[1..], e, true));
    assert [args[0]] + args[1..] == args;
  }

  /** A printed argument before a comma is read up to it. */
  lemma ArgReads(toks: seq<Token>, table: seq<bool>, at: nat, arg: TypeRef, rest: seq<Lexeme>)
    requires Printable(arg) && Holds(toks, table, at, Print(arg) + [Mark(Comma)] + rest)
    ensures ReadTo(toks, table, at, arg, at + |Print(arg)|)
  {
    FirstArgRead(toks, table, at, arg, rest);
    PrintStarts(arg);
    ArgsHold(toks, table, at, Print(arg), rest);
    assert toks[at + 0].lex == Print(arg)[0];
  }

  lemma CommaLast(first: seq<Lexeme>, rest: seq<Lexeme>)
    ensures first + [Mark(Comma)] + [] == first + [Mark(Comma)]
    ensures first + [Mark(Comma)] + rest + [Mark(Comma)] == first + [Mark(Comma)] + (rest + [Mark(Comma)])
  {
  }

  lemma OneForm(args: seq<TypeRef>)
    requires |args| == 1 && PrintableArgs(args)
    ensures Printable(args[0]) && PrintArgs(args) == Print(args[0])
  {
  }

  lemma MoreForm(args: seq<TypeRef>)
    requires |args| > 1 && PrintableArgs(args)
    ensures Printable(args[0]) && PrintableArgs(args[1..])
    ensures PrintArgs(args) == Print(args[0]) + [Mark(Comma)] + PrintArgs(args[1..])
  {
  }

  lemma OneTrailing(toks: seq<Token>, table: seq<bool>, open: nat, at: nat, args: seq<TypeRef>)
    requires |args| == 1 && PrintableArgs(args) && Holds(toks, table, at, PrintArgs(args) + [Mark(Comma)])
    requires open < |toks| && table[open] && KindAt(toks, at + |PrintArgs(args)| + 1) == RAngle
    ensures ParseArgs(toks, table, open, at) == Parsed(args, at + |PrintArgs(args)| + 1, true)
  {
    OneForm(args);
    CommaLast(Print(args[0]), []);
    ArgReads(toks, table, at, args[0], []);
    LastFrom(toks, table, open, at, args[0], at + |PrintArgs(args)|);
    assert [args[0]] == args;
  }

  /** The first of several arguments, and where the others stand. */
  lemma FirstOfMore(toks: seq<Token>, table: seq<bool>, at: nat, args: seq<TypeRef>, m: nat, rest: seq<Lexeme>)
    requires |args| > 1 && PrintableArgs(args) && Holds(toks, table, at, PrintArgs(args) + [Mark(Comma)])
    requires rest == PrintArgs(args[1..]) && m == at + |Print(args[0])|
    ensures ReadTo(toks, table, at, args[0], m) && PrintableArgs(args[1..])
    ensures Holds(toks, table, m + 1, rest + [Mark(Comma)]) && at + |PrintArgs(args)| == m + 1 + |rest|
  {
    var first := Print(args[0]);
    MoreForm(args);
    CommaLast(first, rest);
    ArgReads(toks, table, at, args[0], rest + [Mark(Comma)]);
    ArgsHold(toks, table, at, first, rest + [Mark(Comma)]);
  }

  lemma {:induction false} ArgsTrailing(toks: seq<Token>, table: seq<bool>, open: nat, at: nat, args: seq<TypeRef>)
    requires args != [] && PrintableArgs(args) && Holds(toks, table, at, PrintArgs(args) + [Mark(Comma)])
    requires open < |toks| && table[open] && KindAt(toks, at + |PrintArgs(args)| + 1) == RAngle
    ensures ParseArgs(toks, table, open, at) == Parsed(args, at + |PrintArgs(args)| + 1, true)
    decreases args
  {
    if |args| == 1 {
      OneTrailing(toks, table, open, at, args);
    } else {
      var m, rest := at + |Print(args[0])|, PrintArgs(args[1..]);
      FirstOfMore(toks, table, at, args, m, rest);
      ArgsTrailing(toks, table, open, m + 1, args[1..]);
      MoreFrom(toks, table, open, at, args, m, m + 1 + |rest| + 1);
    }
  }

  /** A generic type with a comma behind its last argument is read as without
      it, and nothing is reported. */
  lemma TrailingCommaReads(toks: seq<Token>, table: seq<bool>, at: nat, parts: seq<string>, args: seq<TypeRef>)
    requires parts != [] && args != [] && PrintableArgs(args)
    requires var list := PrintArgs(args) + [Mark(Comma)];
      Holds(toks, table, at, PrintName(parts) + [Mark(LAngle)] + list + [Mark(RAngle)])
    ensures ParseBase(toks, table, at)
         == Parsed(Named(NamedRef(parts, false, args), 0, false), at + |PrintName(parts)| + |PrintArgs(args)| + 3, true)
  {
    var name, list := PrintName(parts), PrintArgs(args) + [Mark(Comma)];
    var open := at + |name|;
    NameFlat(parts);
    GenericHolds(toks, table, at, name, list);
    assert toks[at + 0].lex == name[0];
    NameReads(toks, table, at, parts);
    ArgsTrailing(toks, table, open, open + 1, args);
    ArgsStart(args);
    assert toks[open + 1 + 0].lex == list[0] == PrintArgs(args)[0];
    GenericFrom(toks, table, at, parts, args, open, open + 1 + |list|);
  }

  // ---- A list that nothing closes ----

  /** Behind the argument at one position and a comma the next one starts. */
  predicate Follows(toks: seq<Token>, table: seq<bool>, at: nat, next: nat)
    requires Ended(toks) && |table| == |toks| && at < |toks|
  {
    var e := ParseType(toks, table, at).pos; KindAt(toks, e) == Comma && next == e + 1
  }

  /** The arguments start at pos and, each time, behind the comma after the one
      before. */
  predicate Chained(toks: seq<Token>, table: seq<bool>, pos: nat, starts: seq<nat>)
    requires Ended(toks) && |table| == |toks|
    decreases |starts|
  {
    starts == [] ||
    (&& starts[0] == pos < |toks|
     && (|starts| > 1 ==> Follows(toks, table, pos, starts[1]) && Chained(toks, table, starts[1], starts[1..])))
  }

  ghost predicate OnLine(toks: seq<Token>, open: nat, starts: seq<nat>)
    requires open < |toks|
  {
    forall j :: 0 <= j < |starts| ==> starts[j] < |toks| && toks[starts[j]].line == toks[open].line
  }

  lemma ChainedMore(toks: seq<Token>, table: seq<bool>, open: nat, pos: nat, next: nat, rest: seq<nat>)
    requires Ended(toks) && |table| == |toks| && open < |toks| && pos < |toks|
    requires Chained(toks, table, next, rest) && OnLine(toks, open, rest) && toks[pos].line == toks[open].line
    requires rest != [] ==> Follows(toks, table, pos, next)
    ensures Chained(toks, table, pos, [pos] + rest) && OnLine(toks, open, [pos] + rest)
  {
    assert ([pos] + rest)[1..] == rest;
  }

  /** Where a list goes on that nothing closes, a comma stands before the next
      argument, if there is one. */
  lemma GoesOnByComma(toks: seq<Token>, table: seq<bool>, open: nat, pos: nat)
    requires Ended(toks) && |table| == |toks| && open < |toks| && pos < |toks| && GoesOn(toks, table, false, pos)
    ensures var next := ParseArg(toks, table, false, pos).pos;
      Follows(toks, table, pos, next) || !More(toks, false, open, next)
  {
  }

  /** Every argument of a list that nothing closes starts on the line of its
      `<`, and behind a comma unless it is the first. */
  lemma {:induction false} UnclosedStaysOnLine(toks: seq<Token>, table: seq<bool>, open: nat, pos: nat)
    returns (starts: seq<nat>)
    requires Ended(toks) && |table| == |toks| && open < |toks| && pos < |toks| && !table[open]
    ensures |starts| == |ParseArgs(toks, table, open, pos).value|
    ensures Chained(toks, table, pos, starts) && OnLine(toks, open, starts)
    decreases |toks| - pos
  {
    starts := [];
    if More(toks, false, open, pos) {
      var next := ParseArg(toks, table, false, pos).pos;
      var rest: seq<nat> := [];
      if next != pos && GoesOn(toks, table, false, pos) {
        GoesOnByComma(toks, table, open, pos);
        rest := UnclosedStaysOnLine(toks, table, open, next);
      }
      ChainedMore(toks, table, open, pos, next, rest);
      starts := [pos] + rest;
    }
  }

  /** A closed list is read up to its closer, whatever is missing between its
      arguments, unless the next token starts no argument. */
  lemma {:induction false} ClosedReadsOn(toks: seq<Token>, table: seq<bool>, open: nat, pos: nat)
    requires Ended(toks) && |table| == |toks| && open < |toks| && pos < |toks| && table[open]
    ensures var e := ParseArgs(toks, table, open, pos).pos;
      KindAt(toks, e) == RAngle || KindAt(toks, e) == EOF || ParseType(toks, table, e).pos == e
    decreases |toks| - pos
  {
    if More(toks, true, open, pos) {
      var arg := ParseArg(toks, table, true, pos);
      if arg.pos != pos { ClosedReadsOn(toks, table, open, arg.pos); }
    }
  }
}
