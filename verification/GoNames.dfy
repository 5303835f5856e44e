/** Where a field name is split into words, and how the Go name spells them. */
module GoNames {
  import opened Idents

  // ---- Splitting ----

  predicate Capital(c: char) { c in "ABCDEFGHIJKLMNOPQRSTUVWXYZ" }

  predicate Small(c: char) { c in "abcdefghijklmnopqrstuvwxyz" }

  lemma CapitalExactly(c: char)
    ensures Capital(c) <==> IsUpper(c)
  {
    var capitals := "ABCDEFGHIJKLMNOPQRSTUVWXYZ";
    assert forall i :: 0 <= i < 26 ==> capitals[i] == 'A' + i as char;
    if IsUpper(c) { assert capitals[c as int - 'A' as int] == c; }
  }

  lemma SmallExactly(c: char)
    ensures Small(c) <==> IsLower(c)
  {
    var smalls := "abcdefghijklmnopqrstuvwxyz";
    assert forall i :: 0 <= i < 26 ==> smalls[i] == 'a' + i as char;
    if IsLower(c) { assert smalls[c as int - 'a' as int] == c; }
  }

  /** A word opens with the first character of t behind s: a capital behind a
      small letter, or one behind a capital and before a small letter. */
  predicate Breaks(s: string, t: string) {
    && s != "" && t != "" && Capital(t[0])
    && (Small(s[|s| - 1]) || (Capital(s[|s| - 1]) && |t| > 1 && Small(t[1])))
  }

  lemma BreaksExactly(s: string, t: string)
    requires t != ""
    ensures Breaks(s, t) <==> Opens(s + t, |s|)
  {
    CapitalExactly(t[0]);
    if s != "" {
      CapitalExactly(s[|s| - 1]);
      SmallExactly(s[|s| - 1]);
    }
    if |t| > 1 { SmallExactly(t[1]); }
  }

  /** Before a cut the words are those of s alone. */
  predicate Cut(s: string, t: string) { t == "" || Separates(t[0]) || Opens(s + t, |s|) }

  lemma {:induction false} WordEndFront(s: string, t: string, i: nat)
    requires i < |s| && Cut(s, t)
    ensures WordEnd(s + t, i) == WordEnd(s, i)
    decreases |s| - i
  {
    if i + 1 < |s| {
      assert Opens(s + t, i + 1) <==> Opens(s, i + 1);
      if !(Separates(s[i + 1]) || Opens(s, i + 1)) { WordEndFront(s, t, i + 1); }
    } else if t == "" {
      assert s + t == s;
    }
  }

  lemma {:induction false} WordsFront(s: string, t: string, i: nat)
    requires i <= |s| && Cut(s, t)
    ensures Words(s + t, i) == Words(s, i) + Words(s + t, |s|)
    decreases |s| - i
  {
    if i < |s| {
      if Separates(s[i]) {
        WordsFront(s, t, i + 1);
      } else {
        WordEndFront(s, t, i);
        var e := WordEnd(s, i);
        WordsFront(s, t, e);
        assert (s + t)[i..e] == s[i..e];
      }
    }
  }

  lemma {:induction false} WordEndBack(s: string, t: string, i: nat)
    requires i < |t|
    ensures WordEnd(s + t, |s| + i) == |s| + WordEnd(t, i)
    decreases |t| - i
  {
    if i + 1 < |t| {
      assert Opens(s + t, |s| + i + 1) <==> Opens(t, i + 1);
      if !(Separates(t[i + 1]) || Opens(t, i + 1)) { WordEndBack(s, t, i + 1); }
    }
  }

  lemma SliceBack(s: string, t: string, i: nat, e: nat)
    requires i <= e <= |t|
    ensures (s + t)[|s| + i..|s| + e] == t[i..e]
  {
  }

  /** Behind a cut the words are those of t alone. */
  lemma {:induction false} WordsBack(s: string, t: string, i: nat)
    requires i <= |t|
    ensures Words(s + t, |s| + i) == Words(t, i)
    decreases |t| - i
  {
    if i < |t| {
      if Separates(t[i]) {
        WordsBack(s, t, i + 1);
      } else {
        WordEndBack(s, t, i);
        var e := WordEnd(t, i);
        WordsBack(s, t, e);
        SliceBack(s, t, i, e);
      }
    }
  }

  /** A name is split where a word opens. */
  lemma SplitsAtBreak(s: string, t: string)
    requires Breaks(s, t)
    ensures Words(s + t, 0) == Words(s, 0) + Words(t, 0)
  {
    BreaksExactly(s, t);
    WordsFront(s, t, 0);
    WordsBack(s, t, 0);
  }

  /** A name is split at `_` and at `-`, which belong to no word. */
  lemma SplitsAtSeparator(s: string, c: char, t: string)
    requires c == '_' || c == '-'
    ensures Words(s + [c] + t, 0) == Words(s, 0) + Words(t, 0)
  {
    var rest := [c] + t;
    assert s + [c] + t == s + rest;
    WordsFront(s, rest, 0);
    WordsBack(s, rest, 0);
    WordsBack([c], t, 0);
  }

  /** A name without separators in which no word opens is one word. */
  lemma KeepsWhole(s: string)
    requires s != "" && '_' !in s && '-' !in s
    requires forall i :: 0 < i < |s| ==> !Breaks(s[..i], s[i..])
    ensures Words(s, 0) == [s]
  {
    forall i | 0 < i < |s| ensures !Opens(s, i) && !Separates(s[i]) { InsideWord(s, i); }
    WholeEnd(s, 0);
    assert s[0] in s;
    WholeWord(s);
  }

  lemma InsideWord(s: string, i: nat)
    requires 0 < i < |s| && '_' !in s && '-' !in s && !Breaks(s[..i], s[i..])
    ensures !Opens(s, i) && !Separates(s[i])
  {
    BreaksExactly(s[..i], s[i..]);
    assert s[..i] + s[i..] == s && s[i] in s;
  }

  lemma WholeWord(s: string)
    requires s != "" && !Separates(s[0]) && WordEnd(s, 0) == |s|
    ensures Words(s, 0) == [s]
  {
    assert s[0..|s|] == s && Words(s, |s|) == [];
  }

  lemma {:induction false} WholeEnd(s: string, i: nat)
    requires i < |s| && forall j :: i < j < |s| ==> !Opens(s, j) && !Separates(s[j])
    ensures WordEnd(s, i) == |s|
    decreases |s| - i
  {
    if i + 1 < |s| { WholeEnd(s, i + 1); }
  }

  // ---- Spelling ----

  /** The two alphabets correspond letter by letter. */
  lemma UpperTable()
    ensures Upper("abcdefghijklmnopqrstuvwxyz") == "ABCDEFGHIJKLMNOPQRSTUVWXYZ"
  {
    var capitals, smalls := "ABCDEFGHIJKLMNOPQRSTUVWXYZ", "abcdefghijklmnopqrstuvwxyz";
    assert forall i :: 0 <= i < 26 ==> smalls[i] == 'a' + i as char;
    assert forall i :: 0 <= i < 26 ==> capitals[i] == 'A' + i as char;
  }

  lemma LowerTable()
    ensures Lower("ABCDEFGHIJKLMNOPQRSTUVWXYZ") == "abcdefghijklmnopqrstuvwxyz"
  {
    var capitals, smalls := "ABCDEFGHIJKLMNOPQRSTUVWXYZ", "abcdefghijklmnopqrstuvwxyz";
    assert forall i :: 0 <= i < 26 ==> smalls[i] == 'a' + i as char;
    assert forall i :: 0 <= i < 26 ==> capitals[i] == 'A' + i as char;
  }

  /** Nothing but letters changes case. */
  lemma CaseOnly(c: char)
    ensures UpperChar(c) != c <==> Small(c)
    ensures LowerChar(c) != c <==> Capital(c)
    ensures LowerChar(UpperChar(c)) == LowerChar(c)
  {
    CapitalExactly(c);
    SmallExactly(c);
  }

  lemma LowerJoin(s: string, t: string)
    ensures Lower(s + t) == Lower(s) + Lower(t)
  {
  }

  lemma LowerAgain(c: char)
    ensures LowerChar(UpperChar(c)) == LowerChar(c) && LowerChar(LowerChar(c)) == LowerChar(c)
  {
  }

  /** A word keeps its letters: all are capitals if it is a known one, else the
      first alone. */
  lemma GoWordAt(known: set<string>, w: string, i: nat)
    requires i < |w|
    ensures |GoWord(known, w)| == |w|
    ensures GoWord(known, w)[i] == if i == 0 || Lower(w) in known then UpperChar(w[i]) else LowerChar(w[i])
  {
    if Lower(w) !in known {
      var first, rest := Upper(w[..1]), Lower(w[1..]);
      assert first[0] == UpperChar(w[0]) && |first| == 1 && |rest| == |w| - 1;
      if i > 0 { assert (first + rest)[i] == rest[i - 1] == LowerChar(w[1..][i - 1]); }
    }
  }

  lemma GoWordLower(known: set<string>, w: string)
    ensures Lower(GoWord(known, w)) == Lower(w)
  {
    var g := GoWord(known, w);
    if w != [] { GoWordAt(known, w, 0); }
    forall i | 0 <= i < |w| ensures Lower(g)[i] == Lower(w)[i] {
      GoWordAt(known, w, i);
      LowerAgain(w[i]);
    }
  }

  lemma {:induction false} GoWordsLower(known: set<string>, words: seq<string>)
    ensures Lower(GoWords(known, words)) == Lower(Joined(words))
  {
    if words != [] {
      var last := |words| - 1;
      GoWordsLower(known, words[..last]);
      GoWordLower(known, words[last]);
      LowerJoin(GoWords(known, words[..last]), GoWord(known, words[last]));
      JoinedLast(words);
      LowerJoin(Joined(words[..last]), words[last]);
    }
  }

  lemma {:induction false} JoinedLast(words: seq<string>)
    requires words != []
    ensures Joined(words) == Joined(words[..|words| - 1]) + words[|words| - 1]
  {
    if |words| > 1 {
      JoinedLast(words[1..]);
      assert words[..|words| - 1][1..] == words[1..][..|words| - 2];
    } else {
      assert words[1..] == [];
    }
  }

  /** Between a name without its separators and its Go name only case changes,
      and the Go name starts with a capital if the name does with a letter. */
  lemma GoNameExactly(known: set<string>, name: string)
    ensures Lower(GoName(known, name)) == Lower(Letters(name))
    ensures Letters(name) != "" ==> GoName(known, name) != "" && GoName(known, name)[0] == UpperChar(Letters(name)[0])
  {
    var words := Words(name, 0);
    WordsKeepLetters(name, 0);
    assert name[0..] == name;
    GoWordsLower(known, words);
    assert |Lower(GoName(known, name))| == |GoName(known, name)| && |Lower(Letters(name))| == |Letters(name)|;
    if Letters(name) != "" {
      WordsClean(name, 0);
      GoWordsFirst(known, words);
    }
  }

  lemma {:induction false} GoWordsFirst(known: set<string>, words: seq<string>)
    requires words != [] && words[0] != []
    ensures GoWords(known, words) != [] && GoWords(known, words)[0] == UpperChar(words[0][0])
    ensures Joined(words) != [] && Joined(words)[0] == words[0][0]
  {
    GoWordAt(known, words[0], 0);
    if |words| > 1 {
      GoWordsFirst(known, words[..|words| - 1]);
    } else {
      assert words[..0] == [];
    }
  }

  /** The second field that asks for a name takes it with `_2`, the tenth with
      `_10`. */
  lemma SuffixesCount(g: string)
    ensures Suffixed(g, 0) == g && Suffixed(g, 1) == g + "_2" && Suffixed(g, 9) == g + "_10"
  {
    assert Itoa(2) == "2" && Itoa(1) == "1" && Itoa(10) == Itoa(1) + [Digit(0)];
  }

  /** In general the number behind `_` is that of the field in its group. */
  lemma SuffixExactly(g: string, rank: nat)
    requires rank > 0
    ensures exists s :: Suffixed(g, rank) == g + "_" + s && Atoi(s) == rank + 1
  {
    AtoiItoa(rank + 1);
  }

  ghost function Earlier(gos: seq<string>, n: nat, g: string): set<nat>
    requires n <= |gos|
  {
    set j: nat | j < n && gos[j] == g
  }

  /** A field's place in its group is how many fields before it ask for the same
      name. */
  lemma {:induction false} CountExactly(gos: seq<string>, n: nat, g: string)
    requires n <= |gos|
    ensures Count(gos, n, g) == |Earlier(gos, n, g)|
  {
    if n > 0 {
      CountExactly(gos, n - 1, g);
      var before := Earlier(gos, n - 1, g);
      assert n - 1 !in before;
      assert Earlier(gos, n, g) == if gos[n - 1] == g then before + {n - 1} else before;
    }
  }

  // ---- Collisions ----

  predicate IsFirst(gos: seq<string>, i: nat) { i < |gos| && forall j :: 0 <= j < i ==> gos[j] != gos[i] }

  /** The first field of a group of two or more. */
  predicate Leads(gos: seq<string>, i: nat) { IsFirst(gos, i) && exists j :: i < j < |gos| && gos[j] == gos[i] }

  ghost predicate Rising(at: seq<nat>) {
    forall x: nat, y: nat {:trigger Rises(at, x, y)} :: x < y < |at| ==> Rises(at, x, y)
  }

  predicate Rises(at: seq<nat>, x: nat, y: nat) requires x < y < |at| { at[x] < at[y] }

  predicate AllBelow(at: seq<nat>, n: nat) { forall x :: 0 <= x < |at| ==> at[x] < n }

  lemma RisingOn(at: seq<nat>, n: nat)
    requires Rising(at) && AllBelow(at, n)
    ensures Rising(at + [n]) && AllBelow(at + [n], n + 1)
  {
    var more := at + [n];
    forall x: nat, y: nat | x < y < |more| ensures Rises(more, x, y) {
      if y < |at| { assert Rises(at, x, y); }
    }
  }

  /** order lists the names of gos, each where it is first met. */
  ghost predicate FirstsRight(gos: seq<string>, order: seq<string>, at: seq<nat>) {
    && |at| == |order| && Rising(at)
    && forall x: nat {:trigger FirstRight(gos, order, at, x)} :: x < |at| ==> FirstRight(gos, order, at, x)
  }

  predicate FirstRight(gos: seq<string>, order: seq<string>, at: seq<nat>, x: nat)
    requires x < |at| == |order|
  {
    IsFirst(gos, at[x]) && gos[at[x]] == order[x]
  }

  lemma {:induction false} FirstsAt(gos: seq<string>, n: nat) returns (at: seq<nat>)
    requires n <= |gos|
    ensures FirstsRight(gos, Firsts(gos, n), at) && AllBelow(at, n)
  {
    at := [];
    if n > 0 {
      at := FirstsAt(gos, n - 1);
      var front := Firsts(gos, n - 1);
      if gos[n - 1] !in front {
        FirstsOn(gos, front, at, n - 1);
        at := at + [n - 1];
      }
    }
  }

  lemma FirstsOn(gos: seq<string>, order: seq<string>, at: seq<nat>, n: nat)
    requires n < |gos| && order == Firsts(gos, n) && gos[n] !in order && FirstsRight(gos, order, at) && AllBelow(at, n)
    ensures FirstsRight(gos, order + [gos[n]], at + [n]) && AllBelow(at + [n], n + 1)
  {
    RisingOn(at, n);
    FirstsHold(gos, n);
    forall j | 0 <= j < n ensures gos[j] != gos[n] { assert gos[j] in order; }
    forall x: nat | x < |at + [n]| ensures FirstRight(gos, order + [gos[n]], at + [n], x) {
      if x < |at| { assert FirstRight(gos, order, at, x); }
    }
  }

  /** The collisions are those of the fields of leads, in order. */
  ghost predicate CollisionsRight(names: seq<string>, gos: seq<string>, cs: seq<Collision>, leads: seq<nat>)
    requires |names| == |gos|
  {
    && |leads| == |cs| && Rising(leads)
    && forall x: nat {:trigger CollisionRight(names, gos, cs, leads, x)} :: x < |leads| ==>
         CollisionRight(names, gos, cs, leads, x)
  }

  predicate CollisionRight(names: seq<string>, gos: seq<string>, cs: seq<Collision>, leads: seq<nat>, x: nat)
    requires |names| == |gos| && x < |leads| == |cs|
  {
    Leads(gos, leads[x]) && cs[x] == CollisionOf(names, gos, gos[leads[x]])
  }

  lemma CollisionsOn(names: seq<string>, gos: seq<string>, cs: seq<Collision>, leads: seq<nat>, i: nat)
    requires |names| == |gos| && CollisionsRight(names, gos, cs, leads) && AllBelow(leads, i) && Leads(gos, i)
    ensures CollisionsRight(names, gos, cs + [CollisionOf(names, gos, gos[i])], leads + [i])
  {
    RisingOn(leads, i);
    var more, on := cs + [CollisionOf(names, gos, gos[i])], leads + [i];
    forall x: nat | x < |on| ensures CollisionRight(names, gos, more, on, x) {
      if x < |leads| { assert CollisionRight(names, gos, cs, leads, x); }
    }
  }

  /** Collisions are reported in the order of their first fields. */
  lemma {:induction false} CollisionsInOrder(names: seq<string>, gos: seq<string>, order: seq<string>, at: seq<nat>,
                                             n: nat)
    returns (leads: seq<nat>)
    requires |names| == |gos| && FirstsRight(gos, order, at) && n <= |at|
    ensures CollisionsRight(names, gos, CollisionsOf(names, gos, order[..n]), leads)
    ensures n < |at| ==> AllBelow(leads, at[n])
    ensures forall x :: 0 <= x < n && Leads(gos, at[x]) ==> at[x] in leads
  {
    leads := [];
    if n > 0 {
      var last := n - 1;
      var before := CollisionsInOrder(names, gos, order, at, last);
      leads := CollisionStep(names, gos, order, at, last, before);
      if n < |at| { assert Rises(at, last, n); }
    }
  }

  lemma CollisionStep(names: seq<string>, gos: seq<string>, order: seq<string>, at: seq<nat>, n: nat, leads: seq<nat>)
    returns (more: seq<nat>)
    requires |names| == |gos| && FirstsRight(gos, order, at) && n < |at| && AllBelow(leads, at[n])
    requires CollisionsRight(names, gos, CollisionsOf(names, gos, order[..n]), leads)
    ensures CollisionsRight(names, gos, CollisionsOf(names, gos, order[..n + 1]), more)
    ensures AllBelow(more, at[n] + 1) && (forall i :: i in leads ==> i in more)
    ensures Leads(gos, at[n]) ==> at[n] in more
  {
    var cs := CollisionsOf(names, gos, order[..n]);
    CollisionsMore(names, gos, order, n);
    assert FirstRight(gos, order, at, n);
    TwoOrMore(gos, at[n]);
    if Leads(gos, at[n]) {
      CollisionsOn(names, gos, cs, leads, at[n]);
      more := leads + [at[n]];
      assert more[|leads|] == at[n];
    } else {
      more := leads;
      assert cs + [] == cs;
    }
  }

  /** A group has two fields or more exactly when its first leads others. */
  lemma TwoOrMore(gos: seq<string>, i: nat)
    requires IsFirst(gos, i)
    ensures |Group(gos, |gos|, gos[i])| >= 2 <==> Leads(gos, i)
  {
    var g := gos[i];
    var group := Group(gos, |gos|, g);
    GroupRanks(gos, |gos|, g);
    if |group| >= 2 {
      assert group[0] != group[1] by { assert Rank(gos, group[0]) == 0 && Rank(gos, group[1]) == 1; }
      assert gos[group[0]] == g && gos[group[1]] == g;
    }
    if Leads(gos, i) {
      var j :| i < j < |gos| && gos[j] == g;
      GroupHolds(gos, |gos|, i);
      GroupHolds(gos, |gos|, j);
    }
  }

  /** A collision is reported for each field that leads others, and for nothing
      else, in the order of these fields. */
  lemma CollisionsExactly(names: seq<string>, gos: seq<string>) returns (leads: seq<nat>)
    requires |names| == |gos|
    ensures CollisionsRight(names, gos, CollisionsOf(names, gos, Firsts(gos, |gos|)), leads)
    ensures forall i: nat :: Leads(gos, i) ==> i in leads
  {
    var order := Firsts(gos, |gos|);
    var at := FirstsAt(gos, |gos|);
    leads := CollisionsInOrder(names, gos, order, at, |at|);
    assert order[..|at|] == order;
    FirstsHold(gos, |gos|);
    forall i: nat | Leads(gos, i) ensures i in leads {
      var x :| 0 <= x < |order| && order[x] == gos[i];
      assert FirstRight(gos, order, at, x);
      assert at[x] == i;
    }
  }
}
