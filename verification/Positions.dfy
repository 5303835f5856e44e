/** Lexer positions and language-server positions of one text. */
module Positions {
  import opened Ast
  import opened Utf8

  predicate Breaks(b: byte) { b == 10 || b == 13 }

  /** The offset of the first line-end byte at or after i, or the end. */
  function LineEnd(src: seq<byte>, i: nat): (j: nat)
    requires i <= |src|
    ensures i <= j <= |src| && (j < |src| ==> Breaks(src[j]))
    ensures forall k :: i <= k < j ==> !Breaks(src[k])
    decreases |src| - i
  {
    if i == |src| || Breaks(src[i]) then i else LineEnd(src, i + 1)
  }

  /** Where the next line after offset i starts; none on the last line. */
  function NextLine(src: seq<byte>, i: nat): (r: Option<nat>)
    requires i <= |src|
    ensures r.Some? ==> i < r.value <= |src|
  {
    var j := LineEnd(src, i);
    if j == |src| then None
    else if src[j] == 13 && j + 1 < |src| && src[j + 1] == 10 then Some(j + 2)
    else Some(j + 1)
  }

  /** The offset of line n. */
  function LineStart(src: seq<byte>, n: nat): (r: Option<nat>)
    ensures r.Some? ==> r.value <= |src|
  {
    if n == 0 then Some(0)
    else
      var prior := LineStart(src, n - 1);
      if prior.None? then None else NextLine(src, prior.value)
  }

  /** How many UTF-16 units k runes of line take, from offset i on. */
  function Width(line: seq<byte>, i: nat, k: nat): nat
    requires i <= |line|
    decreases k
  {
    if k == 0 || i == |line| then 0
    else Units(At(line, i).rune) + Width(line, i + At(line, i).size, k - 1)
  }

  /** The offset reached from i over runes of the line until want units are
      covered. */
  function Cover(src: seq<byte>, i: nat, want: int): nat
    requires i <= |src|
    decreases |src| - i
  {
    if i == |src| || Breaks(src[i]) || want <= 0 then i
    else Cover(src, i + At(src, i).size, want - Units(At(src, i).rune))
  }

  /** A language-server position, 0-based, in UTF-16 units. */
  datatype LspPosition = LspPosition(line: nat, character: nat)

  function OffsetOf(src: seq<byte>, p: LspPosition): nat {
    var start := LineStart(src, p.line);
    if start.None? then |src| else Cover(src, start.value, p.character)
  }

  /** Line and column as the lexer counts them, 1-based, columns in runes. */
  function LspOf(src: seq<byte>, line: int, column: int): LspPosition {
    var n: nat := if line - 1 > 0 then line - 1 else 0;
    var c: nat := if column - 1 > 0 then column - 1 else 0;
    var col := if n == 0 && Marked(src) then c + 1 else c;
    var start := LineStart(src, n);
    if start.None? then LspPosition(n, col)
    else LspPosition(n, Width(src[start.value..LineEnd(src, start.value)], 0, col))
  }

  method FindLineStart(src: seq<byte>, n: nat) returns (r: Option<nat>)
    ensures r == LineStart(src, n)
  {
    var at := 0;
    for i := 0 to n
      invariant at <= |src| && LineStart(src, i) == Some(at)
    {
      var next := NextLine(src, at);
      if next.None? {
        NoLineBeyond(src, i + 1, n);
        return None;
      }
      at := next.value;
    }
    return Some(at);
  }

  lemma {:induction false} NoLineBeyond(src: seq<byte>, m: nat, n: nat)
    requires m <= n && LineStart(src, m).None?
    ensures LineStart(src, n).None?
  {
    if m < n { NoLineBeyond(src, m, n - 1); }
  }

  method OffsetFromLsp(src: seq<byte>, p: LspPosition) returns (off: nat)
    ensures off == OffsetOf(src, p) && off <= |src|
  {
    var start := FindLineStart(src, p.line);
    if start.None? { return |src|; }
    off := start.value;
    var units := 0;
    while off < |src| && !Breaks(src[off]) && units < p.character
      invariant off <= |src|
      invariant Cover(src, off, p.character - units) == OffsetOf(src, p)
      decreases |src| - off
    {
      var d := At(src, off);
      off := off + d.size;
      units := units + Units(d.rune);
    }
  }

  method RuneColToUtf16(line: seq<byte>, col: nat) returns (units: nat)
    ensures units == Width(line, 0, col)
  {
    units := 0;
    var runes, i := 0, 0;
    while i < |line| && runes < col
      invariant i <= |line| && runes <= col
      invariant units + Width(line, i, col - runes) == Width(line, 0, col)
      decreases |line| - i
    {
      var d := At(line, i);
      units, runes, i := units + Units(d.rune), runes + 1, i + d.size;
    }
  }

  method Utf16Position(src: seq<byte>, line: int, column: int) returns (p: LspPosition)
    ensures p == LspOf(src, line, column)
  {
    var n: nat := if line - 1 > 0 then line - 1 else 0;
    var col: nat := if column - 1 > 0 then column - 1 else 0;
    if n == 0 && Marked(src) { col := col + 1; }
    var start := FindLineStart(src, n);
    if start.None? { return LspPosition(n, col); }
    var units := RuneColToUtf16(src[start.value..LineEnd(src, start.value)], col);
    return LspPosition(n, units);
  }

  /** Decoding k runes from i ends at j. */
  predicate Spans(src: seq<byte>, i: nat, j: nat, k: nat)
    decreases k
  {
    if k == 0 then i == j
    else i < |src| && Spans(src, i + At(src, i).size, j, k - 1)
  }

  /** offset stands between the two bytes of one line end. */
  predicate InsideBreak(src: seq<byte>, offset: nat) {
    0 < offset < |src| && src[offset - 1] == 13 && src[offset] == 10
  }

  /** No line ends between from and offset, unless offset stands inside the
      line end. */
  predicate SameLine(src: seq<byte>, from: nat, offset: nat) {
    offset <= |src| && forall i :: from <= i < offset && Breaks(src[i]) ==> i == offset - 1 && InsideBreak(src, offset)
  }

  /** line counts the lines up to offset and column the runes of the last of
      them, a byte-order mark not counted. */
  ghost predicate Lexed(src: seq<byte>, offset: nat, line: int, column: int) {
    && line >= 1 && column >= 1 && LineStart(src, line - 1).Some?
    && var start := LineStart(src, line - 1).value;
    && start <= offset && SameLine(src, start, offset)
    && Spans(src, start, offset, if line == 1 && Marked(src) then column else column - 1)
  }

  lemma {:induction false} SpansMore(src: seq<byte>, i: nat, j: nat, k: nat)
    requires Spans(src, i, j, k) && j < |src|
    ensures Spans(src, i, j + At(src, j).size, k + 1)
    decreases k
  {
    if k > 0 { SpansMore(src, i + At(src, i).size, j, k - 1); }
  }

  /** Whether the rune at offset ends a line. */
  predicate EndsLine(src: seq<byte>, offset: nat)
    requires offset < |src|
  {
    src[offset] == 10 || (src[offset] == 13 && !(offset + 1 < |src| && src[offset + 1] == 10))
  }

  lemma LineEndAt(src: seq<byte>, from: nat, j: nat)
    requires from <= j < |src| && Breaks(src[j]) && forall i :: from <= i < j ==> !Breaks(src[i])
    ensures LineEnd(src, from) == j
  {
  }

  lemma LineAfter(src: seq<byte>, start: nat, offset: nat)
    requires start <= offset < |src| && SameLine(src, start, offset) && EndsLine(src, offset)
    ensures NextLine(src, start) == Some(offset + 1)
  {
    if InsideBreak(src, offset) && start < offset { LineEndAt(src, start, offset - 1); }
    else { LineEndAt(src, start, offset); }
  }

  lemma SameLineOn(src: seq<byte>, start: nat, offset: nat)
    requires start <= offset < |src| && SameLine(src, start, offset) && !EndsLine(src, offset)
    ensures SameLine(src, start, offset + At(src, offset).size)
  {
    var d := At(src, offset);
    if src[offset] < 0x80 { AsciiAlone(src, offset); }
    forall i | offset <= i < offset + d.size && d.size > 1 ensures !Breaks(src[i]) {
      WideBytes(src, offset, i - offset);
    }
  }

  class Lexer {
    const src: seq<byte>
    var offset: nat
    var line: int
    var column: int

    ghost predicate Valid() reads this { Lexed(src, offset, line, column) }

    /** Starts after a byte-order mark, which takes no column. */
    constructor (src: seq<byte>)
      ensures Valid() && this.src == src && offset == (if Marked(src) then 3 else 0)
    {
      this.src := src;
      line, column := 1, 1;
      offset := if Marked(src) then 3 else 0;
      new;
      MarkSpans(src);
    }

    /** Consumes one rune. */
    method Advance()
      requires Valid() && offset < |src|
      modifies this
      ensures Valid() && offset == old(offset) + At(src, old(offset)).size
      ensures line == if EndsLine(src, old(offset)) then old(line) + 1 else old(line)
    {
      var end := EndsLine(src, offset);
      var d := At(src, offset);
      AdvanceLexed(src, offset, line, column);
      if end {
        line, column := line + 1, 1;
      } else {
        column := column + 1;
      }
      offset := offset + d.size;
    }
  }

  lemma AdvanceLexed(src: seq<byte>, offset: nat, line: int, column: int)
    requires Lexed(src, offset, line, column) && offset < |src|
    ensures if EndsLine(src, offset) then At(src, offset).size == 1 && Lexed(src, offset + 1, line + 1, 1)
      else Lexed(src, offset + At(src, offset).size, line, column + 1)
  {
    var start := LineStart(src, line - 1).value;
    if EndsLine(src, offset) {
      AsciiAlone(src, offset);
      LineAfter(src, start, offset);
      assert LineStart(src, line) == Some(offset + 1);
    } else {
      SameLineOn(src, start, offset);
      SpansMore(src, start, offset, if line == 1 && Marked(src) then column else column - 1);
    }
  }

  lemma MarkSpans(src: seq<byte>)
    ensures Lexed(src, if Marked(src) then 3 else 0, 1, 1)
  {
    if Marked(src) {
      MarkDecodes(src);
      assert Spans(src, 3, 3, 0);
    }
  }

  /** The width of a run of runes leads back over the same runes, and a run
      that reaches past the line stops at its end. */
  lemma {:induction false} CoverWidth(src: seq<byte>, start: nat, end: nat, i: nat, j: nat, k: nat, col: nat)
    requires start <= i <= j <= end <= |src| && (end < |src| ==> Breaks(src[end]))
    requires Spans(src, i, j, k) && forall m :: i <= m < j ==> !Breaks(src[m])
    requires col == k || (col > k && j == end)
    ensures Cover(src, i, Width(src[start..end], i - start, col)) == j
    decreases k
  {
    if k > 0 {
      var next := i + At(src, i).size;
      SpansForward(src, next, j, k - 1);
      CoverWidth(src, start, end, next, j, k - 1, col - 1);
      CoverOne(src, src[start..end], start, end, i, col, j);
    }
  }

  lemma CoverOne(src: seq<byte>, line: seq<byte>, start: nat, end: nat, i: nat, col: nat, j: nat)
    requires start <= i < end <= |src| && (end < |src| ==> Breaks(src[end])) && line == src[start..end]
    requires col > 0 && !Breaks(src[i]) && i + At(src, i).size <= end
    requires Cover(src, i + At(src, i).size, Width(line, i + At(src, i).size - start, col - 1)) == j
    ensures Cover(src, i, Width(line, i - start, col)) == j
  {
    WidthStep(src, start, end, i, col);
    CoverStep(src, i, Width(line, i - start, col));
  }

  lemma CoverStep(src: seq<byte>, i: nat, want: int)
    requires i < |src| && !Breaks(src[i]) && want > 0
    ensures Cover(src, i, want) == Cover(src, i + At(src, i).size, want - Units(At(src, i).rune))
  {
  }

  lemma WidthStep(src: seq<byte>, start: nat, end: nat, i: nat, col: nat)
    requires start <= i < end <= |src| && (end < |src| ==> Breaks(src[end])) && col > 0
    requires i + At(src, i).size <= end
    ensures Width(src[start..end], i - start, col)
         == Units(At(src, i).rune) + Width(src[start..end], i + At(src, i).size - start, col - 1)
  {
    AtPrefix(src, start, end, i);
  }

  lemma {:induction false} SpansForward(src: seq<byte>, i: nat, j: nat, k: nat)
    requires Spans(src, i, j, k)
    ensures i <= j && (k > 0 ==> i < j)
    decreases k
  {
    if k > 0 { SpansForward(src, i + At(src, i).size, j, k - 1); }
  }

  /** A run that ends with an ASCII byte ends with a rune of one byte. */
  lemma {:induction false} SpansBack(src: seq<byte>, i: nat, j: nat, k: nat)
    requires Spans(src, i, j, k) && i < j <= |src| && src[j - 1] < 0x80
    ensures k > 0 && Spans(src, i, j - 1, k - 1)
    decreases k
  {
    var d := At(src, i);
    SpansForward(src, i + d.size, j, k - 1);
    if i + d.size < j {
      SpansBack(src, i + d.size, j, k - 1);
    } else if d.size > 1 {
      WideBytes(src, i, d.size - 1);
    }
  }

  lemma OutsideAgrees(src: seq<byte>, start: nat, offset: nat, k: nat)
    requires start <= offset && SameLine(src, start, offset) && !InsideBreak(src, offset) &&
        Spans(src, start, offset, k)
    ensures Cover(src, start, Width(src[start..LineEnd(src, start)], 0, k)) == offset
  {
    CoverWidth(src, start, LineEnd(src, start), start, offset, k, k);
  }

  lemma InsideFallsBack(src: seq<byte>, start: nat, offset: nat, k: nat)
    requires start < offset && SameLine(src, start, offset) && InsideBreak(src, offset) && Spans(src, start, offset, k)
    ensures Cover(src, start, Width(src[start..LineEnd(src, start)], 0, k)) == offset - 1
  {
    LineEndAt(src, start, offset - 1);
    SpansBack(src, start, offset, k);
    CoverWidth(src, start, offset - 1, start, offset - 1, k - 1, k);
  }

  /** No line starts inside a line end. */
  lemma NotAtStart(src: seq<byte>, n: nat, offset: nat)
    requires InsideBreak(src, offset)
    ensures LineStart(src, n) != Some(offset)
  {
  }

  /** The language-server position of where the lexer stands leads back to
      its offset exactly when that is not inside a line end. */
  lemma PositionsAgree(src: seq<byte>, offset: nat, line: int, column: int)
    requires Lexed(src, offset, line, column)
    ensures OffsetOf(src, LspOf(src, line, column)) == if InsideBreak(src, offset) then offset - 1 else offset
  {
    var start := LineStart(src, line - 1).value;
    var k := if line == 1 && Marked(src) then column else column - 1;
    if InsideBreak(src, offset) {
      NotAtStart(src, line - 1, offset);
      InsideFallsBack(src, start, offset, k);
    } else {
      OutsideAgrees(src, start, offset, k);
    }
  }
}
