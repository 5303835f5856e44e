/** UTF-8 decoding as the lexer and the language server use it. */
module Utf8 {
  type byte = b: int | 0 <= b < 256

  /** A rune and its size in bytes; where the bytes spell no rune, one of them
      stands for the replacement character. */
  datatype Decoded = Decoded(rune: nat, size: nat)

  const Bad := Decoded(0xFFFD, 1)

  predicate Follows(b: int) { 0x80 <= b <= 0xBF }

  /** The range of a second byte after a first one. */
  predicate SecondFits(first: int, second: int) {
    && Follows(second)
    && (first == 0xE0 ==> second >= 0xA0) && (first == 0xED ==> second <= 0x9F)
    && (first == 0xF0 ==> second >= 0x90) && (first == 0xF4 ==> second <= 0x8F)
  }

  /** How many bytes a first byte asks for, 0 for one that starts no rune. */
  function Wanted(first: int): nat {
    if first < 0x80 then 1
    else if first < 0xC2 then 0
    else if first < 0xE0 then 2
    else if first < 0xF0 then 3
    else if first <= 0xF4 then 4
    else 0
  }

  /** The n bytes from i on spell one rune. */
  predicate Spells(src: seq<byte>, i: nat, n: nat) {
    && 0 < n && i + n <= |src|
    && (n > 1 ==> SecondFits(src[i], src[i + 1]))
    && (n > 2 ==> Follows(src[i + 2]))
    && (n > 3 ==> Follows(src[i + 3]))
  }

  /** The bits of a first byte that asks for n bytes. */
  function Leading(first: int, n: nat): int {
    if n == 1 then first else if n == 2 then first - 0xC0 else if n == 3 then first - 0xE0 else first - 0xF0
  }

  /** The rune of the n bytes from i on, of which the first k are read. */
  function Assembled(src: seq<byte>, i: nat, n: nat, k: nat): int
    requires 0 < k <= n && i + n <= |src|
  {
    if k == 1 then Leading(src[i], n) else Assembled(src, i, n, k - 1) * 0x40 + (src[i + k - 1] as int - 0x80)
  }

  lemma {:induction false} AssembledNat(src: seq<byte>, i: nat, n: nat, k: nat)
    requires 0 < k <= n && i < |src| && n == Wanted(src[i]) && Spells(src, i, n)
    ensures Assembled(src, i, n, k) >= 0
  {
    if k > 1 { AssembledNat(src, i, n, k - 1); }
  }

  /** The rune at i. */
  function At(src: seq<byte>, i: nat): (d: Decoded)
    requires i < |src|
    ensures 1 <= d.size && i + d.size <= |src|
  {
    var n := Wanted(src[i]);
    if n == 0 || !Spells(src, i, n) then Bad
    else
      AssembledNat(src, i, n, n);
      Decoded(Assembled(src, i, n, n), n)
  }

  lemma AsciiAlone(src: seq<byte>, i: nat)
    requires i < |src| && src[i] < 0x80
    ensures At(src, i) == Decoded(src[i], 1)
  {
  }

  /** The bytes of a rune of more than one byte are none of them ASCII. */
  lemma WideBytes(src: seq<byte>, i: nat, k: nat)
    requires i < |src| && k < At(src, i).size && At(src, i).size > 1
    ensures src[i + k] >= 0x80
  {
  }

  /** The UTF-16 code units of a rune. */
  function Units(rune: nat): nat { if rune > 0xFFFF then 2 else 1 }

  lemma {:induction false} AssembledPart(src: seq<byte>, from: nat, to: nat, i: nat, n: nat, k: nat)
    requires from <= i && i + n <= to <= |src| && 0 < k <= n
    ensures Assembled(src[from..to], i - from, n, k) == Assembled(src, i, n, k)
  {
    if k > 1 { AssembledPart(src, from, to, i, n, k - 1); }
  }

  /** Cutting the text before a byte that continues no rune leaves the runes
      before it as they were. */
  lemma AtPrefix(src: seq<byte>, from: nat, to: nat, i: nat)
    requires from <= i < to <= |src| && (to < |src| ==> src[to] < 0x80)
    ensures At(src[from..to], i - from) == At(src, i)
  {
    var line, n := src[from..to], Wanted(src[i]);
    if n > 0 {
      SpellsPart(src, from, to, i, n);
      if Spells(src, i, n) { AssembledPart(src, from, to, i, n, n); }
    }
  }

  lemma SpellsPart(src: seq<byte>, from: nat, to: nat, i: nat, n: nat)
    requires from <= i < to <= |src| && (to < |src| ==> src[to] < 0x80) && n <= 4
    ensures Spells(src[from..to], i - from, n) <==> Spells(src, i, n)
    ensures Spells(src, i, n) ==> i + n <= to
  {
  }

  const Mark: seq<byte> := [0xEF, 0xBB, 0xBF]

  /** Whether a byte-order mark opens the text. */
  predicate Marked(src: seq<byte>) { Mark <= src }

  lemma MarkDecodes(src: seq<byte>)
    requires Marked(src)
    ensures |src| >= 3 && At(src, 0) == Decoded(0xFEFF, 3)
  {
    assert src[0] == Mark[0] && src[1] == Mark[1] && src[2] == Mark[2];
    assert Spells(src, 0, 3);
    assert Assembled(src, 0, 3, 1) == 0xF && Assembled(src, 0, 3, 2) == 0xF * 0x40 + 0x3B;
  }
}
