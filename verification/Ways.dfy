/** Ways through nested lists, step by step, and their order. */
module Ways {
  /** The position taken at each step. */
  type Way = seq<nat>

  /** way comes before that one, step by step. */
  predicate Before(way: Way, that: Way)
    decreases |way|
  {
    if that == [] then false
    else if way == [] then true
    else way[0] < that[0] || (way[0] == that[0] && Before(way[1..], that[1..]))
  }

  ghost predicate InOrder(ways: seq<Way>) { forall i, j :: 0 <= i < j < |ways| ==> Before(ways[i], ways[j]) }

  function Under(n: nat, ways: seq<Way>): seq<Way> { seq(|ways|, i requires 0 <= i < |ways| => [n] + ways[i]) }

  /** way parts from that one by an earlier step. */
  predicate LeftOf(way: Way, that: Way)
    decreases |way|
  {
    way != [] && that != [] && (way[0] < that[0] || (way[0] == that[0] && LeftOf(way[1..], that[1..])))
  }

  lemma {:induction false} LeftOn(way: Way, that: Way, more: Way)
    requires LeftOf(way, that)
    ensures LeftOf(way, that + more) && Before(way, that + more)
    decreases |way|
  {
    assert (that + more)[1..] == that[1..] + more;
    if way[0] == that[0] { LeftOn(way[1..], that[1..], more); }
  }

  lemma {:induction false} LeftTrans(a: Way, b: Way, c: Way)
    requires LeftOf(a, b) && LeftOf(b, c)
    ensures LeftOf(a, c)
    decreases |a|
  {
    if a[0] == b[0] == c[0] { LeftTrans(a[1..], b[1..], c[1..]); }
  }

  /** What goes on from a way left of another is left of it. */
  lemma {:induction false} LeftPrefix(a: Way, more: Way, b: Way)
    requires LeftOf(a, b)
    ensures LeftOf(a + more, b)
    decreases |a|
  {
    assert (a + more)[1..] == a[1..] + more;
    if a[0] == b[0] { LeftPrefix(a[1..], more, b[1..]); }
  }

  lemma {:induction false} LeftUnder(at: Way, a: Way, b: Way)
    ensures LeftOf(at + a, at + b) <==> LeftOf(a, b)
    decreases |at|
  {
    if at == [] {
      assert at + a == a && at + b == b;
    } else {
      assert (at + a)[1..] == at[1..] + a && (at + b)[1..] == at[1..] + b;
      LeftUnder(at[1..], a, b);
    }
  }

  /** What is left of a way that goes on from at is left of at or goes on from
      it too. */
  lemma {:induction false} LeftSplit(way: Way, at: Way, more: Way)
    requires LeftOf(way, at + more)
    ensures LeftOf(way, at) || at <= way
    decreases |at|
  {
    if at != [] {
      assert (at + more)[1..] == at[1..] + more;
      if way[0] == at[0] {
        LeftSplit(way[1..], at[1..], more);
        assert way == [way[0]] + way[1..] && at == [at[0]] + at[1..];
      }
    }
  }

  // ---- Sets of ways ----

  ghost predicate AllLeft(ways: seq<Way>, at: Way) { forall i :: 0 <= i < |ways| ==> LeftOf(ways[i], at) }

  /** Every way is left of at or goes on from it. */
  ghost predicate AllUpTo(ways: seq<Way>, at: Way) {
    forall i :: 0 <= i < |ways| ==> LeftOf(ways[i], at) || at <= ways[i]
  }

  lemma AllLeftOn(ways: seq<Way>, at: Way, more: Way)
    requires AllLeft(ways, at)
    ensures AllLeft(ways, at + more)
  {
    forall i | 0 <= i < |ways| ensures LeftOf(ways[i], at + more) { LeftOn(ways[i], at, more); }
  }

  lemma AllLeftSplit(ways: seq<Way>, at: Way, more: Way)
    requires AllLeft(ways, at + more)
    ensures AllUpTo(ways, at)
  {
    forall i | 0 <= i < |ways| ensures LeftOf(ways[i], at) || at <= ways[i] { LeftSplit(ways[i], at, more); }
  }

  lemma AllUpToSplit(ways: seq<Way>, at: Way, more: Way)
    requires AllUpTo(ways, at + more)
    ensures AllUpTo(ways, at)
  {
    forall i | 0 <= i < |ways| ensures LeftOf(ways[i], at) || at <= ways[i] {
      if LeftOf(ways[i], at + more) { LeftSplit(ways[i], at, more); }
    }
  }

  lemma AllUpToNext(ways: seq<Way>, at: Way, next: Way)
    requires AllUpTo(ways, at) && LeftOf(at, next)
    ensures AllLeft(ways, next)
  {
    forall i | 0 <= i < |ways| ensures LeftOf(ways[i], next) {
      if LeftOf(ways[i], at) {
        LeftTrans(ways[i], at, next);
      } else {
        assert ways[i] == at + ways[i][|at|..];
        LeftPrefix(at, ways[i][|at|..], next);
      }
    }
  }

  lemma NextStep(at: Way, n: nat)
    ensures LeftOf(at + [n], at + [n + 1])
  {
    LeftUnder(at, [n], [n + 1]);
  }

  lemma InOrderOn(ways: seq<Way>, at: Way)
    requires InOrder(ways) && AllLeft(ways, at)
    ensures InOrder(ways + [at]) && AllUpTo(ways + [at], at)
  {
    var more := ways + [at];
    forall i, j | 0 <= i < j < |more| ensures Before(more[i], more[j]) {
      if j == |ways| {
        LeftOn(ways[i], at, []);
        assert at + [] == at;
      }
    }
  }
}
