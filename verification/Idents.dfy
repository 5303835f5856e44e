/** Go identifiers for field names. */
module Idents {

  predicate IsUpper(c: char) { 'A' <= c <= 'Z' }

  predicate IsLower(c: char) { 'a' <= c <= 'z' }

  predicate Separates(c: char) { c == '_' || c == '-' }

  /** A capital that opens a word: after a lower-case letter, or the last of a
      run of capitals before a lower-case letter. */
  predicate Opens(s: string, i: nat)
    requires i < |s|
  {
    && i > 0 && IsUpper(s[i])
    && (IsLower(s[i - 1]) || (IsUpper(s[i - 1]) && i + 1 < |s| && IsLower(s[i + 1])))
  }

  /** The end of the word that runs through i. */
  function WordEnd(s: string, i: nat): (j: nat)
    requires i < |s|
    ensures i < j <= |s|
    decreases |s| - i
  {
    if i + 1 == |s| || Separates(s[i + 1]) || Opens(s, i + 1) then i + 1 else WordEnd(s, i + 1)
  }

  /** The words of s from i on. */
  function Words(s: string, i: nat): seq<string>
    requires i <= |s|
    decreases |s| - i
  {
    if i == |s| then []
    else if Separates(s[i]) then Words(s, i + 1)
    else [s[i..WordEnd(s, i)]] + Words(s, WordEnd(s, i))
  }

  /** The words of s from i on, when current is the word under way. */
  function Resume(s: string, i: nat, current: string): seq<string>
    requires i <= |s|
  {
    if current == [] then Words(s, i)
    else if i == |s| || Separates(s[i]) || Opens(s, i) then [current] + Words(s, i)
    else [current + s[i..WordEnd(s, i)]] + Words(s, WordEnd(s, i))
  }

  function Closed(current: string): seq<string> { if current == [] then [] else [current] }

  lemma ResumeBreak(s: string, i: nat, current: string)
    requires i <= |s| && (i == |s| || Separates(s[i]) || Opens(s, i))
    ensures Resume(s, i, current) == Closed(current) + Words(s, i)
  {
  }

  lemma Move(parts: seq<string>, word: seq<string>, rest: seq<string>, all: seq<string>)
    requires parts + (word + rest) == all
    ensures (parts + word) + rest == all
  {
    assert (parts + word) + rest == parts + (word + rest);
  }

  /** Splits on separators and at camel-case boundaries. */
  method SplitFieldName(s: string) returns (parts: seq<string>)
    ensures parts == Words(s, 0)
  {
    parts := [];
    var current: string := [];
    for i := 0 to |s|
      invariant parts + Resume(s, i, current) == Words(s, 0)
    {
      if Separates(s[i]) || Opens(s, i) {
        ResumeBreak(s, i, current);
        Move(parts, Closed(current), Words(s, i), Words(s, 0));
        parts, current := Flush(parts, current);
      }
      if !Separates(s[i]) {
        ResumeLetter(s, i, current);
        current := current + [s[i]];
      }
    }
    ResumeBreak(s, |s|, current);
    Move(parts, Closed(current), Words(s, |s|), Words(s, 0));
    parts, current := Flush(parts, current);
  }

  /** Ends the word under way. */
  method Flush(parts: seq<string>, current: string) returns (more: seq<string>, empty: string)
    ensures more == parts + Closed(current) && empty == []
  {
    more, empty := parts, current;
    if |current| > 0 { more, empty := parts + [current], []; }
  }

  lemma ResumeLetter(s: string, i: nat, current: string)
    requires i < |s| && !Separates(s[i]) && (Opens(s, i) ==> current == [])
    ensures Resume(s, i, current) == Resume(s, i + 1, current + [s[i]])
  {
    var more := current + [s[i]];
    var e := WordEnd(s, i);
    assert s[i..e] == [s[i]] + s[i + 1..e];
    assert current + s[i..e] == more + s[i + 1..e];
    assert current == [] ==> current + s[i..e] == s[i..e];
    assert e == i + 1 ==> more + s[i + 1..e] == more;
    assert Resume(s, i, current) == [current + s[i..e]] + Words(s, e);
  }

  predicate IsWord(w: string) { w != [] && forall i :: 0 <= i < |w| ==> !Separates(w[i]) }

  lemma {:induction false} WordEndClean(s: string, i: nat)
    requires i < |s| && !Separates(s[i])
    ensures forall k :: i <= k < WordEnd(s, i) ==> !Separates(s[k])
    decreases |s| - i
  {
    if !(i + 1 == |s| || Separates(s[i + 1]) || Opens(s, i + 1)) { WordEndClean(s, i + 1); }
  }

  /** No word is empty or holds a separator. */
  lemma {:induction false} WordsClean(s: string, i: nat)
    requires i <= |s|
    ensures forall k :: 0 <= k < |Words(s, i)| ==> IsWord(Words(s, i)[k])
    decreases |s| - i
  {
    if i < |s| {
      if Separates(s[i]) {
        WordsClean(s, i + 1);
      } else {
        WordEndClean(s, i);
        WordsClean(s, WordEnd(s, i));
      }
    }
  }

  function Joined(words: seq<string>): string {
    if words == [] then [] else words[0] + Joined(words[1..])
  }

  /** s without its separators. */
  function Letters(s: string): string {
    if s == [] then [] else (if Separates(s[0]) then [] else [s[0]]) + Letters(s[1..])
  }

  lemma {:induction false} LettersAppend(s: string, t: string)
    ensures Letters(s + t) == Letters(s) + Letters(t)
  {
    if s == [] {
      assert s + t == t;
    } else {
      assert (s + t)[1..] == s[1..] + t;
      LettersAppend(s[1..], t);
    }
  }

  lemma {:induction false} LettersOfWord(w: string)
    requires forall i :: 0 <= i < |w| ==> !Separates(w[i])
    ensures Letters(w) == w
  {
    if w != [] { LettersOfWord(w[1..]); }
  }

  /** The words hold every other character of s, once and in order. */
  lemma {:induction false} WordsKeepLetters(s: string, i: nat)
    requires i <= |s|
    ensures Joined(Words(s, i)) == Letters(s[i..])
    decreases |s| - i
  {
    if i < |s| {
      if Separates(s[i]) {
        WordsKeepLetters(s, i + 1);
      } else {
        var e := WordEnd(s, i);
        WordEndClean(s, i);
        WordsKeepLetters(s, e);
        LettersOfWord(s[i..e]);
        LettersAppend(s[i..e], s[e..]);
        assert s[i..] == s[i..e] + s[e..];
      }
    }
  }

  function UpperChar(c: char): char { if IsLower(c) then c - 'a' + 'A' else c }

  function LowerChar(c: char): char { if IsUpper(c) then c - 'A' + 'a' else c }

  function Upper(s: string): string { seq(|s|, i requires 0 <= i < |s| => UpperChar(s[i])) }

  function Lower(s: string): string { seq(|s|, i requires 0 <= i < |s| => LowerChar(s[i])) }

  /** A word as Go writes it; known is the set of words written in capitals. */
  function GoWord(known: set<string>, w: string): string {
    if w == [] then []
    else if Lower(w) in known then Upper(w)
    else Upper(w[..1]) + Lower(w[1..])
  }

  function GoWords(known: set<string>, words: seq<string>): string {
    if words == [] then [] else GoWords(known, words[..|words| - 1]) + GoWord(known, words[|words| - 1])
  }

  method JoinWords(known: set<string>, parts: seq<string>) returns (r: string)
    ensures r == GoWords(known, parts)
  {
    r := [];
    for i := 0 to |parts|
      invariant r == GoWords(known, parts[..i])
    {
      assert parts[..i + 1][..i] == parts[..i];
      r := r + GoWord(known, parts[i]);
    }
    assert parts[..|parts|] == parts;
  }

  method GoFieldName(known: set<string>, name: string) returns (r: string)
    ensures r == GoName(known, name)
  {
    var parts := SplitFieldName(name);
    r := JoinWords(known, parts);
  }

  function GoName(known: set<string>, name: string): string { GoWords(known, Words(name, 0)) }

  lemma {:induction false} GoWordsClean(known: set<string>, words: seq<string>)
    requires forall k :: 0 <= k < |words| ==> IsWord(words[k])
    ensures forall c :: c in GoWords(known, words) ==> !Separates(c)
  {
    if words != [] {
      GoWordsClean(known, words[..|words| - 1]);
      GoWordClean(known, words[|words| - 1]);
    }
  }

  lemma GoWordClean(known: set<string>, w: string)
    requires IsWord(w)
    ensures forall c :: c in GoWord(known, w) ==> !Separates(c)
  {
  }

  /** A Go field name holds no separator. */
  lemma GoNameClean(known: set<string>, name: string)
    ensures '_' !in GoName(known, name) && '-' !in GoName(known, name)
  {
    WordsClean(name, 0);
    GoWordsClean(known, Words(name, 0));
  }

  function Digit(d: nat): char
    requires d < 10
  {
    '0' + d as char
  }

  /** The decimal digits of n. */
  function Itoa(n: nat): string {
    if n < 10 then [Digit(n)] else Itoa(n / 10) + [Digit(n % 10)]
  }

  /** Two numbers with the same digits are the same; the value is read back
      digit by digit. */
  lemma {:induction false} ItoaInjective(m: nat, n: nat)
    requires Itoa(m) == Itoa(n)
    ensures m == n
  {
    AtoiItoa(m);
    AtoiItoa(n);
  }

  function Atoi(s: string): int {
    if s == [] then 0 else Atoi(s[..|s| - 1]) * 10 + (s[|s| - 1] as int - '0' as int)
  }

  lemma {:induction false} AtoiItoa(n: nat)
    ensures Atoi(Itoa(n)) == n
  {
    var s := Itoa(n);
    if n >= 10 {
      AtoiItoa(n / 10);
      assert s[..|s| - 1] == Itoa(n / 10);
    }
  }

  /** How many earlier names share the Go name of i. */
  function Rank(gos: seq<string>, i: nat): nat
    requires i < |gos|
  {
    Count(gos, i, gos[i])
  }

  function Count(gos: seq<string>, n: nat, g: string): nat
    requires n <= |gos|
  {
    if n == 0 then 0 else Count(gos, n - 1, g) + if gos[n - 1] == g then 1 else 0
  }

  lemma {:induction false} CountGrows(gos: seq<string>, m: nat, n: nat, g: string)
    requires m <= n <= |gos|
    ensures Count(gos, m, g) <= Count(gos, n, g)
  {
    if m < n { CountGrows(gos, m, n - 1, g); }
  }

  /** The Go name alone for the first field that asks for it, and with a suffix
      that counts up for the others. */
  function Resolved(gos: seq<string>, i: nat): string
    requires i < |gos|
  {
    Suffixed(gos[i], Rank(gos, i))
  }

  function Suffixed(g: string, rank: nat): string {
    if rank == 0 then g else g + "_" + Itoa(rank + 1)
  }

  /** The separator splits a suffixed name in one way. */
  lemma SplitUnique(g: string, h: string, s: string, t: string)
    requires '_' !in g && '_' !in h && g + "_" + s == h + "_" + t
    ensures g == h && s == t
  {
    var x, y := g + "_" + s, h + "_" + t;
    assert x[|g|] == '_' && y[|h|] == '_';
    assert forall i :: 0 <= i < |g| ==> x[i] == g[i] && g[i] in g;
    assert forall i :: 0 <= i < |h| ==> y[i] == h[i] && h[i] in h;
    assert |g| == |h|;
    assert g == x[..|g|] && h == y[..|h|] && s == x[|g| + 1..] && t == y[|h| + 1..];
  }

  lemma SuffixedInjective(g: string, a: nat, h: string, b: nat)
    requires '_' !in g && '_' !in h && Suffixed(g, a) == Suffixed(h, b)
    ensures g == h && a == b
  {
    assert (g + "_" + Itoa(a + 1))[|g|] == '_';
    assert (h + "_" + Itoa(b + 1))[|h|] == '_';
    if a > 0 && b > 0 {
      SplitUnique(g, h, Itoa(a + 1), Itoa(b + 1));
      ItoaInjective(a + 1, b + 1);
    }
  }

  /** No two fields take the same Go name. */
  lemma ResolvedDistinct(gos: seq<string>, i: nat, j: nat)
    requires i < j < |gos| && forall k :: 0 <= k < |gos| ==> '_' !in gos[k]
    ensures Resolved(gos, i) != Resolved(gos, j)
  {
    if Resolved(gos, i) == Resolved(gos, j) {
      SuffixedInjective(gos[i], Rank(gos, i), gos[j], Rank(gos, j));
      CountGrows(gos, i + 1, j, gos[i]);
    }
  }

  /** Fields that ask for the same Go name, and the names they take. */
  datatype Collision = Collision(names: seq<string>, canonical: string, resolved: seq<string>)

  /** The positions, in order, of a Go name among the first n. */
  function Group(gos: seq<string>, n: nat, g: string): seq<nat>
    requires n <= |gos|
  {
    if n == 0 then []
    else Group(gos, n - 1, g) + if gos[n - 1] == g then [n - 1] else []
  }

  /** The k-th position of a group has rank k. */
  lemma {:induction false} GroupRanks(gos: seq<string>, n: nat, g: string)
    requires n <= |gos|
    ensures |Group(gos, n, g)| == Count(gos, n, g)
    ensures forall k :: 0 <= k < |Group(gos, n, g)| ==>
      var i := Group(gos, n, g)[k]; i < n && gos[i] == g && Rank(gos, i) == k
  {
    if n > 0 { GroupRanks(gos, n - 1, g); }
  }

  lemma {:induction false} GroupHolds(gos: seq<string>, n: nat, i: nat)
    requires i < n <= |gos|
    ensures i in Group(gos, n, gos[i])
  {
    if i < n - 1 { GroupHolds(gos, n - 1, i); }
  }

  function GoNames(known: set<string>, names: seq<string>): seq<string> {
    seq(|names|, i requires 0 <= i < |names| => GoName(known, names[i]))
  }

  /** What is reported of a group. */
  function CollisionOf(names: seq<string>, gos: seq<string>, g: string): Collision
    requires |names| == |gos|
  {
    GroupRanks(gos, |gos|, g);
    CollisionAt(names, Group(gos, |gos|, g), g)
  }

  function CollisionAt(names: seq<string>, members: seq<nat>, g: string): Collision
    requires forall k :: 0 <= k < |members| ==> members[k] < |names|
  {
    Collision(seq(|members|, k requires 0 <= k < |members| => names[members[k]]), g,
              seq(|members|, k requires 0 <= k < |members| => Suffixed(g, k)))
  }

  /** The names among the first n, each once, in the order first met. */
  function Firsts(gos: seq<string>, n: nat): seq<string>
    requires n <= |gos|
  {
    if n == 0 then []
    else
      var front := Firsts(gos, n - 1);
      if gos[n - 1] in front then front else front + [gos[n - 1]]
  }

  lemma {:induction false} FirstsHold(gos: seq<string>, n: nat)
    requires n <= |gos|
    ensures forall i :: 0 <= i < n ==> gos[i] in Firsts(gos, n)
  {
    if n > 0 {
      FirstsHold(gos, n - 1);
      var front := Firsts(gos, n - 1);
      assert (front + [gos[n - 1]])[|front|] == gos[n - 1];
    }
  }

  /** groups holds the positions of each of the first n Go names, and order
      the names met. */
  ghost predicate Grouped(gos: seq<string>, n: nat, groups: map<string, seq<nat>>, order: seq<string>)
    requires n <= |gos|
  {
    && order == Firsts(gos, n)
    && (forall g :: g in groups <==> g in order)
    && (forall g {:trigger Members(groups, g)} :: Members(groups, g) == Group(gos, n, g))
  }

  function Members(groups: map<string, seq<nat>>, g: string): seq<nat> {
    if g in groups then groups[g] else []
  }

  lemma GroupStep(gos: seq<string>, n: nat, groups: map<string, seq<nat>>, order: seq<string>)
    requires n < |gos| && Grouped(gos, n, groups, order)
    ensures var g := gos[n];
      if g in groups then Grouped(gos, n + 1, groups[g := groups[g] + [n]], order)
      else Grouped(gos, n + 1, groups[g := [n]], order + [g])
  {
    var name := gos[n];
    var after := groups[name := Members(groups, name) + [n]];
    forall g ensures Members(after, g) == Group(gos, n + 1, g) { assert Members(groups, g) == Group(gos, n, g); }
    assert name !in groups ==> Members(groups, name) + [n] == [n];
  }

  /** Collects the positions of each Go name, and the names in the order first
      met. */
  method GroupNames(gos: seq<string>) returns (groups: map<string, seq<nat>>, order: seq<string>)
    ensures Grouped(gos, |gos|, groups, order)
  {
    groups, order := map[], [];
    for i := 0 to |gos|
      invariant Grouped(gos, i, groups, order)
    {
      groups, order := AddToGroup(gos, i, gos[i], groups, order);
    }
  }

  method GoFieldNames(known: set<string>, names: seq<string>) returns (gos: seq<string>)
    ensures gos == GoNames(known, names)
  {
    gos := [];
    for i := 0 to |names|
      invariant gos == GoNames(known, names)[..i]
    {
      var g := GoFieldName(known, names[i]);
      gos := gos + [g];
    }
  }

  method AddToGroup(ghost gos: seq<string>, i: nat, g: string, groups: map<string, seq<nat>>, order: seq<string>)
    returns (more: map<string, seq<nat>>, met: seq<string>)
    requires i < |gos| && g == gos[i] && Grouped(gos, i, groups, order)
    ensures Grouped(gos, i + 1, more, met)
  {
    GroupStep(gos, i, groups, order);
    if g !in groups {
      met := order + [g];
      more := groups[g := [i]];
    } else {
      met := order;
      more := groups[g := groups[g] + [i]];
    }
  }

  method ResolveGroup(g: string, members: seq<nat>, resolved: seq<string>) returns (r: seq<string>)
    requires forall k :: 0 <= k < |members| ==> members[k] < |resolved|
    requires forall k, m :: 0 <= k < m < |members| ==> members[k] != members[m]
    ensures |r| == |resolved|
    ensures forall k :: 0 <= k < |members| ==> r[members[k]] == Suffixed(g, k)
    ensures forall i: nat :: i < |r| && i !in members ==> r[i] == resolved[i]
  {
    r := resolved;
    for rank := 0 to |members|
      invariant |r| == |resolved|
      invariant forall k :: 0 <= k < rank ==> r[members[k]] == Suffixed(g, k)
      invariant forall i: nat :: i < |r| && i !in members ==> r[i] == resolved[i]
    {
      r := r[members[rank] := Suffixed(g, rank)];
    }
  }

  /** Every field of the first k groups has its name. */
  ghost predicate Settled(gos: seq<string>, done: seq<string>, resolved: seq<string>) {
    |resolved| == |gos| && forall i :: 0 <= i < |gos| && gos[i] in done ==> resolved[i] == Resolved(gos, i)
  }

  lemma SettleGroup(gos: seq<string>, done: seq<string>, g: string, before: seq<string>, after: seq<string>)
    requires Settled(gos, done, before) && |after| == |gos|
    requires var members := Group(gos, |gos|, g);
      && (forall k :: 0 <= k < |members| ==> members[k] < |after| && after[members[k]] == Suffixed(g, k))
      && forall i: nat :: i < |after| && i !in members ==> after[i] == before[i]
    ensures Settled(gos, done + [g], after)
  {
    var members := Group(gos, |gos|, g);
    GroupRanks(gos, |gos|, g);
    forall i | 0 <= i < |gos| && gos[i] in done + [g] ensures after[i] == Resolved(gos, i) {
      if gos[i] == g {
        GroupHolds(gos, |gos|, i);
        var k :| 0 <= k < |members| && members[k] == i;
      } else {
        assert i !in members;
      }
    }
  }

  /** What is reported of the groups of order that have two fields or more. */
  function CollisionsOf(names: seq<string>, gos: seq<string>, order: seq<string>): seq<Collision>
    requires |names| == |gos|
  {
    if order == [] then []
    else
      var last := |order| - 1;
      CollisionsOf(names, gos, order[..last]) +
      if |Group(gos, |gos|, order[last])| >= 2 then [CollisionOf(names, gos, order[last])] else []
  }

  lemma CollisionsMore(names: seq<string>, gos: seq<string>, order: seq<string>, k: nat)
    requires |names| == |gos| && k < |order|
    ensures CollisionsOf(names, gos, order[..k + 1]) == CollisionsOf(names, gos, order[..k]) +
      if |Group(gos, |gos|, order[k])| >= 2 then [CollisionOf(names, gos, order[k])] else []
  {
    assert order[..k + 1][..k] == order[..k];
  }

  /** Names the fields of one group, and reports it if it has two or more. */
  method ResolveNext(names: seq<string>, ghost gos: seq<string>, ghost order: seq<string>, ghost k: nat, g: string,
                     members: seq<nat>, resolved: seq<string>, collisions: seq<Collision>)
    returns (resolved': seq<string>, collisions': seq<Collision>)
    requires |names| == |gos| && k < |order| && g == order[k] && members == Group(gos, |gos|, g)
    requires Settled(gos, order[..k], resolved) && collisions == CollisionsOf(names, gos, order[..k])
    ensures Settled(gos, order[..k + 1], resolved') && collisions' == CollisionsOf(names, gos, order[..k + 1])
  {
    GroupDistinct(gos, g);
    GroupRanks(gos, |gos|, g);
    resolved' := ResolveGroup(g, members, resolved);
    SettleGroup(gos, order[..k], g, resolved, resolved');
    assert order[..k + 1] == order[..k] + [g];
    CollisionsMore(names, gos, order, k);
    collisions' := ReportGroup(names, g, members, collisions);
  }

  method ReportGroup(names: seq<string>, g: string, members: seq<nat>, collisions: seq<Collision>)
    returns (more: seq<Collision>)
    requires forall i :: 0 <= i < |members| ==> members[i] < |names|
    ensures more == collisions + if |members| >= 2 then [CollisionAt(names, members, g)] else []
  {
    more := collisions;
    if |members| > 1 { more := collisions + [CollisionAt(names, members, g)]; }
  }

  /** Names the fields group by group. */
  method ResolveGroups(names: seq<string>, ghost gos: seq<string>, groups: map<string, seq<nat>>, order: seq<string>)
    returns (resolved: seq<string>, collisions: seq<Collision>)
    requires |names| == |gos| && Grouped(gos, |gos|, groups, order)
    ensures Settled(gos, order, resolved) && collisions == CollisionsOf(names, gos, order)
  {
    resolved := seq(|names|, i => []);
    collisions := [];
    for k := 0 to |order|
      invariant Settled(gos, order[..k], resolved)
      invariant collisions == CollisionsOf(names, gos, order[..k])
    {
      assert order[k] in order;
      assert Members(groups, order[k]) == Group(gos, |gos|, order[k]);
      resolved, collisions := ResolveNext(names, gos, order, k, order[k], groups[order[k]], resolved, collisions);
    }
    assert order[..|order|] == order;
  }

  /** The Go names of a struct's fields, each used once, and the groups of two
      or more that share one. */
  method DedupGoFieldNames(known: set<string>, names: seq<string>)
    returns (resolved: seq<string>, collisions: seq<Collision>)
    ensures |resolved| == |names|
    ensures forall i, j :: 0 <= i < j < |resolved| ==> resolved[i] != resolved[j]
    ensures forall i :: 0 <= i < |names| ==> resolved[i] == Resolved(GoNames(known, names), i)
    ensures var gos := GoNames(known, names); collisions == CollisionsOf(names, gos, Firsts(gos, |gos|))
  {
    var gos := GoFieldNames(known, names);
    var groups, order := GroupNames(gos);
    resolved, collisions := ResolveGroups(names, gos, groups, order);
    FirstsHold(gos, |gos|);
    forall i, j | 0 <= i < j < |names| ensures resolved[i] != resolved[j] {
      GoNamesClean(known, names);
      ResolvedDistinct(gos, i, j);
    }
  }

  lemma GoNamesClean(known: set<string>, names: seq<string>)
    ensures forall k :: 0 <= k < |names| ==> '_' !in GoNames(known, names)[k]
  {
    forall k | 0 <= k < |names| ensures '_' !in GoNames(known, names)[k] { GoNameClean(known, names[k]); }
  }

  lemma GroupDistinct(gos: seq<string>, g: string)
    ensures forall k, m :: 0 <= k < m < |Group(gos, |gos|, g)| ==> Group(gos, |gos|, g)[k] != Group(gos, |gos|, g)[m]
  {
    GroupRanks(gos, |gos|, g);
    forall k, m | 0 <= k < m < |Group(gos, |gos|, g)| ensures Group(gos, |gos|, g)[k] != Group(gos, |gos|, g)[m] {
      assert Rank(gos, Group(gos, |gos|, g)[k]) == k && Rank(gos, Group(gos, |gos|, g)[m]) == m;
    }
  }
}
