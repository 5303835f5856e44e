/** UTF-8 and UTF-16 as their encoders define them, and that the decoder and the
    editor positions agree with them. */
module Encodings {
  import opened Ast
  import opened Utf8
  import opened Positions

  /** A Unicode scalar value: no surrogate. */
  predicate IsRune(r: int) { 0 <= r <= 0x10FFFF && !(0xD800 <= r <= 0xDFFF) }

  /** The UTF-8 encoding of a rune. */
  function Utf8Of(r: int): seq<byte>
    requires IsRune(r)
  {
    if r < 0x80 then [r]
    else if r < 0x800 then [0xC0 + r / 0x40, 0x80 + r % 0x40]
    else if r < 0x1_0000 then [0xE0 + r / 0x1000, 0x80 + r / 0x40 % 0x40, 0x80 + r % 0x40]
    else [0xF0 + r / 0x4_0000, 0x80 + r / 0x1000 % 0x40, 0x80 + r / 0x40 % 0x40, 0x80 + r % 0x40]
  }

  /** The UTF-16 encoding of a rune: one unit, or a surrogate pair. */
  function Utf16Of(r: int): seq<int>
    requires IsRune(r)
  {
    if r < 0x1_0000 then [r] else [0xD800 + (r - 0x1_0000) / 0x400, 0xDC00 + (r - 0x1_0000) % 0x400]
  }

  /** The bytes of src from i on start with the encoding of r. */
  predicate Encoded(src: seq<byte>, i: nat, r: int) {
    IsRune(r) && i + |Utf8Of(r)| <= |src| && src[i..i + |Utf8Of(r)|] == Utf8Of(r)
  }

  lemma EncodedBytes(src: seq<byte>, i: nat, r: int)
    requires Encoded(src, i, r)
    ensures forall k :: 0 <= k < |Utf8Of(r)| ==> src[i + k] == Utf8Of(r)[k]
  {
    forall k | 0 <= k < |Utf8Of(r)| ensures src[i + k] == Utf8Of(r)[k] {
      assert src[i..i + |Utf8Of(r)|][k] == src[i + k];
    }
  }

  /** Encoded runes decode to themselves. */
  lemma EncodedDecodes(src: seq<byte>, i: nat, r: int)
    requires Encoded(src, i, r)
    ensures At(src, i) == Decoded(r, |Utf8Of(r)|)
  {
    EncodedBytes(src, i, r);
    var n := |Utf8Of(r)|;
    assert src[i + 0] == Utf8Of(r)[0];
    if n == 2 {
      assert src[i + 1] == 0x80 + r % 0x40;
      assert Assembled(src, i, 2, 1) == r / 0x40;
    }
    if n == 3 { EncodedThree(src, i, r); }
    if n == 4 { EncodedFour(src, i, r); }
  }

  lemma EncodedThree(src: seq<byte>, i: nat, r: int)
    requires Encoded(src, i, r) && 0x800 <= r < 0x1_0000
    ensures At(src, i) == Decoded(r, 3)
  {
    EncodedBytes(src, i, r);
    assert src[i + 0] == 0xE0 + r / 0x1000 && src[i + 1] == 0x80 + r / 0x40 % 0x40 && src[i + 2] == 0x80 + r % 0x40;
    assert Wanted(src[i]) == 3;
    assert Assembled(src, i, 3, 1) == r / 0x1000;
    assert Assembled(src, i, 3, 2) == r / 0x40;
  }

  lemma EncodedFour(src: seq<byte>, i: nat, r: int)
    requires Encoded(src, i, r) && 0x1_0000 <= r
    ensures At(src, i) == Decoded(r, 4)
  {
    EncodedBytes(src, i, r);
    assert src[i + 0] == 0xF0 + r / 0x4_0000 && src[i + 1] == 0x80 + r / 0x1000 % 0x40;
    assert src[i + 2] == 0x80 + r / 0x40 % 0x40 && src[i + 3] == 0x80 + r % 0x40;
    assert Wanted(src[i]) == 4;
    assert Assembled(src, i, 4, 1) == r / 0x4_0000;
    assert Assembled(src, i, 4, 2) == r / 0x1000;
    assert Assembled(src, i, 4, 3) == r / 0x40;
  }

  /** The bytes a rune was decoded from are its encoding. */
  lemma SpelledEncodes(src: seq<byte>, i: nat)
    requires i < |src| && Wanted(src[i]) > 0 && Spells(src, i, Wanted(src[i]))
    ensures Encoded(src, i, At(src, i).rune)
  {
    var n := Wanted(src[i]);
    var r := Assembled(src, i, n, n);
    if n == 1 {
      assert src[i..i + 1] == [src[i]];
    } else if n == 2 {
      assert Assembled(src, i, 2, 1) == src[i] as int - 0xC0;
      assert src[i..i + 2] == [src[i], src[i + 1]] == Utf8Of(r);
    } else if n == 3 {
      SpelledThree(src, i);
    } else {
      SpelledFour(src, i);
    }
  }

  /** The three digits of a number to the base 64. */
  lemma ThreeDigits(a: nat, b: nat, c: nat)
    requires b < 0x40 && c < 0x40
    ensures var r := a * 0x1000 + b * 0x40 + c; r / 0x1000 == a && r / 0x40 % 0x40 == b && r % 0x40 == c
    ensures (a * 0x1000 + b * 0x40 + c) / 0x40 == a * 0x40 + b
  {
    var r := a * 0x1000 + b * 0x40 + c;
    assert r / 0x40 == a * 0x40 + b;
  }

  lemma FourDigits(a: nat, b: nat, c: nat, d: nat)
    requires b < 0x40 && c < 0x40 && d < 0x40
    ensures var r := a * 0x4_0000 + b * 0x1000 + c * 0x40 + d;
      r / 0x4_0000 == a && r / 0x1000 % 0x40 == b && r / 0x40 % 0x40 == c && r % 0x40 == d
  {
    var r := a * 0x4_0000 + b * 0x1000 + c * 0x40 + d;
    ThreeDigits(a * 0x40 + b, c, d);
    assert r == (a * 0x40 + b) * 0x1000 + c * 0x40 + d;
    assert r / 0x1000 == a * 0x40 + b;
    assert (a * 0x40 + b) / 0x40 == a && (a * 0x40 + b) % 0x40 == b;
  }

  lemma SpelledThree(src: seq<byte>, i: nat)
    requires i < |src| && Wanted(src[i]) == 3 && Spells(src, i, 3)
    ensures Encoded(src, i, Assembled(src, i, 3, 3))
  {
    var a, b, c := src[i] as int - 0xE0, src[i + 1] as int - 0x80, src[i + 2] as int - 0x80;
    assert Assembled(src, i, 3, 1) == a && Assembled(src, i, 3, 2) == a * 0x40 + b;
    var r := Assembled(src, i, 3, 3);
    ThreeDigits(a, b, c);
    assert r == a * 0x1000 + b * 0x40 + c && 0x800 <= r < 0x1_0000 && IsRune(r);
    assert Utf8Of(r) == [src[i], src[i + 1], src[i + 2]];
    assert src[i..i + 3] == [src[i], src[i + 1], src[i + 2]];
  }

  lemma SpelledFour(src: seq<byte>, i: nat)
    requires i < |src| && Wanted(src[i]) == 4 && Spells(src, i, 4)
    ensures Encoded(src, i, Assembled(src, i, 4, 4))
  {
    var a, b := src[i] as int - 0xF0, src[i + 1] as int - 0x80;
    var c, d := src[i + 2] as int - 0x80, src[i + 3] as int - 0x80;
    assert Assembled(src, i, 4, 1) == a && Assembled(src, i, 4, 2) == a * 0x40 + b;
    assert Assembled(src, i, 4, 3) == a * 0x1000 + b * 0x40 + c;
    var r := Assembled(src, i, 4, 4);
    FourDigits(a, b, c, d);
    assert r == a * 0x4_0000 + b * 0x1000 + c * 0x40 + d && 0x1_0000 <= r && IsRune(r);
    assert Utf8Of(r) == [src[i], src[i + 1], src[i + 2], src[i + 3]];
    assert src[i..i + 4] == [src[i], src[i + 1], src[i + 2], src[i + 3]];
  }

  /** Decoding yields the rune whose encoding stands at i, or, where none does,
      one byte as the replacement character. */
  lemma DecodesExactly(src: seq<byte>, i: nat)
    requires i < |src|
    ensures var d := At(src, i);
      if exists r: int :: Encoded(src, i, r) then Encoded(src, i, d.rune) && d.size == |Utf8Of(d.rune)|
      else d == Decoded(0xFFFD, 1)
  {
    if r: int :| Encoded(src, i, r) { EncodedDecodes(src, i, r); }
    else if Wanted(src[i]) > 0 && Spells(src, i, Wanted(src[i])) { SpelledEncodes(src, i); }
  }

  // ---- UTF-16 ----

  /** Every decoded rune is one. */
  lemma DecodedIsRune(src: seq<byte>, i: nat)
    requires i < |src|
    ensures IsRune(At(src, i).rune)
  {
    DecodesExactly(src, i);
  }

  lemma UnitsExactly(r: nat)
    requires IsRune(r)
    ensures Units(r) == |Utf16Of(r)|
  {
  }

  /** The UTF-16 encoding of k runes of src from i on, or of all there are. */
  function Transcoded(src: seq<byte>, i: nat, k: nat): seq<int>
    requires i <= |src|
    decreases k
  {
    if k == 0 || i == |src| then []
    else
      DecodedIsRune(src, i);
      Utf16Of(At(src, i).rune) + Transcoded(src, i + At(src, i).size, k - 1)
  }

  /** A column in runes becomes the number of units that encode them. */
  lemma {:induction false} WidthExactly(line: seq<byte>, i: nat, k: nat)
    requires i <= |line|
    ensures Width(line, i, k) == |Transcoded(line, i, k)|
    decreases k
  {
    if k > 0 && i < |line| {
      DecodedIsRune(line, i);
      UnitsExactly(At(line, i).rune);
      WidthExactly(line, i + At(line, i).size, k - 1);
    }
  }

  /** k runes from i on end at end: the fewest that take want units, or all the
      line has where they take fewer. */
  ghost predicate Covers(src: seq<byte>, i: nat, want: int, end: nat, k: nat)
    requires i <= |src|
  {
    && Spans(src, i, end, k) && end <= LineEnd(src, i)
    && (|Transcoded(src, i, k)| >= want || end == LineEnd(src, i))
    && forall j :: 0 <= j < k ==> |Transcoded(src, i, j)| < want
  }

  lemma TranscodedMore(src: seq<byte>, i: nat, k: nat)
    requires i < |src| && k > 0
    ensures |Transcoded(src, i, k)| == Units(At(src, i).rune) + |Transcoded(src, i + At(src, i).size, k - 1)|
  {
    DecodedIsRune(src, i);
    UnitsExactly(At(src, i).rune);
  }

  /** One rune more in front. */
  lemma CoversMore(src: seq<byte>, i: nat, want: int, end: nat, k: nat)
    requires i < |src| && !Breaks(src[i]) && want > 0
    requires Covers(src, i + At(src, i).size, want - Units(At(src, i).rune), end, k)
    ensures Covers(src, i, want, end, k + 1)
  {
    LineEndPast(src, i);
    TranscodedMore(src, i, k + 1);
    forall j | 0 <= j < k + 1 ensures |Transcoded(src, i, j)| < want {
      if j > 0 { TranscodedMore(src, i, j); }
    }
  }

  /** The offset of want units into a line is the end of the fewest runes that
      take so many, or the end of the line where all take fewer. */
  lemma {:induction false} CoverExactly(src: seq<byte>, i: nat, want: int) returns (k: nat)
    requires i <= |src|
    ensures Covers(src, i, want, Cover(src, i, want), k)
    decreases |src| - i
  {
    if i == |src| || Breaks(src[i]) || want <= 0 {
      k := 0;
    } else {
      var rest := CoverExactly(src, i + At(src, i).size, want - Units(At(src, i).rune));
      CoversMore(src, i, want, Cover(src, i, want), rest);
      k := rest + 1;
    }
  }

  /** The rune at i, no line end, is part of the line. */
  lemma LineEndPast(src: seq<byte>, i: nat)
    requires i < |src| && !Breaks(src[i])
    ensures LineEnd(src, i + At(src, i).size) == LineEnd(src, i) && i + At(src, i).size <= LineEnd(src, i)
  {
    var n := At(src, i).size;
    forall x | i <= x < i + n ensures !Breaks(src[x]) {
      if n > 1 { WideBytes(src, i, x - i); }
    }
    var end := LineEnd(src, i + n);
    LineEndFrom(src, i, end);
  }

  lemma LineEndFrom(src: seq<byte>, i: nat, end: nat)
    requires i <= end <= |src| && (end < |src| ==> Breaks(src[end])) && forall k :: i <= k < end ==> !Breaks(src[k])
    ensures LineEnd(src, i) == end
  {
    if end < |src| { LineEndAt(src, i, end); }
  }

  // ---- Lines ----

  /** A line starts at the start, and behind each line feed and each carriage
      return that no line feed follows. */
  predicate StartsLine(src: seq<byte>, x: nat) {
    || x == 0
    || (x <= |src| && (src[x - 1] == 10 || (src[x - 1] == 13 && !(x < |src| && src[x] == 10))))
  }

  /** How many lines start before x. */
  function LinesBefore(src: seq<byte>, x: nat): nat {
    if x == 0 then 0 else LinesBefore(src, x - 1) + if StartsLine(src, x - 1) then 1 else 0
  }

  /** Between a line start and the next nothing starts a line. */
  lemma NextExactly(src: seq<byte>, x: nat)
    requires x <= |src| && StartsLine(src, x)
    ensures var next := NextLine(src, x);
      && (next.Some? ==> StartsLine(src, next.value) && forall y :: x < y < next.value ==> !StartsLine(src, y))
      && (next.None? ==> forall y :: x < y <= |src| ==> !StartsLine(src, y))
  {
    var end := LineEnd(src, x);
    assert forall y :: x < y <= end ==> !StartsLine(src, y);
  }

  lemma {:induction false} LinesFrom(src: seq<byte>, x: nat, y: nat)
    requires x < y && StartsLine(src, x) && forall z :: x < z < y ==> !StartsLine(src, z)
    ensures LinesBefore(src, y) == LinesBefore(src, x) + 1
  {
    if x + 1 < y { LinesFrom(src, x, y - 1); }
  }

  /** Line n starts where a line starts that n lines start before, and there is
      none where no more than n start. */
  lemma {:induction false} LineStartExactly(src: seq<byte>, n: nat)
    ensures var x := LineStart(src, n);
      if x.Some? then StartsLine(src, x.value) && LinesBefore(src, x.value) == n
      else LinesBefore(src, |src| + 1) <= n
  {
    if n > 0 {
      LineStartExactly(src, n - 1);
      var prior := LineStart(src, n - 1);
      if prior.Some? {
        NextExactly(src, prior.value);
        var next := NextLine(src, prior.value);
        LinesFrom(src, prior.value, if next.Some? then next.value else |src| + 1);
      }
    }
  }

  lemma {:induction false} LinesMore(src: seq<byte>, x: nat, y: nat)
    requires x <= y
    ensures LinesBefore(src, x) <= LinesBefore(src, y)
  {
    if x < y { LinesMore(src, x, y - 1); }
  }

  // ---- Positions ----

  /** Line n of src is the text from start on, up to its line end. */
  predicate IsLine(src: seq<byte>, n: nat, start: nat) {
    start <= |src| && StartsLine(src, start) && LinesBefore(src, start) == n
  }

  predicate NoLine(src: seq<byte>, n: nat) { LinesBefore(src, |src| + 1) <= n }

  function FromZero(n: int): nat { if n < 1 then 0 else n - 1 }

  /** The runes before a column counted from 1, a byte-order mark being one. */
  function RunesBefore(src: seq<byte>, line: int, column: int): nat {
    FromZero(column) + if line <= 1 && [0xEF, 0xBB, 0xBF] <= src then 1 else 0
  }

  /** How many units encode the first runes of the line that starts at start. */
  function UnitsOn(src: seq<byte>, start: nat, runes: nat): nat
    requires start <= |src|
  {
    |Transcoded(src[start..LineEnd(src, start)], 0, runes)|
  }

  /** The editor position of a line and a column counted from 1: the line from 0,
      and as many units as encode the runes before the column; where there is no
      such line, the column itself. */
  lemma EditorPositionExactly(src: seq<byte>, line: int, column: int) returns (start: nat)
    ensures LspOf(src, line, column).line == FromZero(line)
    ensures NoLine(src, FromZero(line)) ==> LspOf(src, line, column).character == RunesBefore(src, line, column)
    ensures !NoLine(src, FromZero(line)) ==> IsLine(src, FromZero(line), start)
    ensures !NoLine(src, FromZero(line)) ==>
      LspOf(src, line, column).character == UnitsOn(src, start, RunesBefore(src, line, column))
  {
    var n := FromZero(line);
    var from := LineFound(src, n);
    start := if from.Some? then from.value else 0;
    if from.Some? { WidthExactly(src[start..LineEnd(src, start)], 0, RunesBefore(src, line, column)); }
  }

  lemma LineFound(src: seq<byte>, n: nat) returns (from: Option<nat>)
    ensures from == LineStart(src, n)
    ensures if from.Some? then IsLine(src, n, from.value) && !NoLine(src, n) else NoLine(src, n)
  {
    from := LineStart(src, n);
    LineStartExactly(src, n);
    if from.Some? { LinesMore(src, from.value + 1, |src| + 1); }
  }

  /** The offset of an editor position: in its line, the end of the fewest runes
      that take so many units, or the line's end where all take fewer; the end
      of the text where there is no such line. */
  lemma EditorOffsetExactly(src: seq<byte>, p: LspPosition) returns (start: nat, k: nat)
    ensures NoLine(src, p.line) ==> OffsetOf(src, p) == |src|
    ensures !NoLine(src, p.line) ==>
      IsLine(src, p.line, start) && Covers(src, start, p.character, OffsetOf(src, p), k)
  {
    var from := LineFound(src, p.line);
    start, k := 0, 0;
    if from.Some? {
      start := from.value;
      k := CoverExactly(src, start, p.character);
    }
  }
}
