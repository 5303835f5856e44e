/** Greatest common divisors, least common multiples, and the first multiple
    at or above a number. */
module Multiples {

  /** d divides q. */
  ghost predicate Divides(d: int, q: int) { exists k :: q == Times(d, k) }

  function Times(a: int, b: int): int { a * b }

  function Gcd(a: nat, b: nat): (g: nat)
    requires a > 0
    ensures g > 0
    decreases b
  {
    if b == 0 then a else Gcd(b, a % b)
  }

  /** The greatest common divisor is a combination of the two numbers. */
  lemma {:induction false} Bezout(a: nat, b: nat) returns (x: int, y: int)
    requires a > 0
    ensures Gcd(a, b) == a * x + b * y
    decreases b
  {
    if b == 0 {
      x, y := 1, 0;
    } else {
      var u, v := Bezout(b, a % b);
      x, y := v, u - (a / b) * v;
      Rearrange(a, b, a / b, a % b, u, v);
    }
  }

  lemma Rearrange(a: int, b: int, q: int, r: int, u: int, v: int)
    requires a == b * q + r
    ensures b * u + r * v == a * v + b * (u - q * v)
  {
    assert r * v == (a - b * q) * v;
    assert (a - b * q) * v == a * v - b * q * v;
    assert b * (u - q * v) == b * u - b * (q * v);
    assert b * q * v == b * (q * v);
  }

  lemma Factor(g: int, m: int, q: int, n: int)
    ensures g * (m * q + n) == (g * m) * q + g * n
  {
  }

  lemma {:induction false} GcdDivides(a: nat, b: nat) returns (i: int, j: int)
    requires a > 0
    ensures a == Gcd(a, b) * i && b == Gcd(a, b) * j
    decreases b
  {
    if b == 0 {
      i, j := 1, 0;
    } else {
      var m, n := GcdDivides(b, a % b);
      var g := Gcd(b, a % b);
      i, j := m * (a / b) + n, m;
      Factor(g, m, a / b, n);
    }
  }

  /** A positive multiple is at least its factor. */
  lemma AtLeast(g: int, k: int)
    requires g > 0
    ensures k >= 1 ==> g * k >= g
  {
    if k >= 1 { assert g * (k - 1) >= 0; }
  }

  /** The only multiple of g strictly between -g and g is 0. */
  lemma SmallMultiple(g: int, k: int)
    requires g > 0 && -g < g * k < g
    ensures k == 0
  {
    AtLeast(g, k);
    AtLeast(g, -k);
    assert g * -k == -(g * k);
  }

  lemma Cancel(g: int, p: int, q: int)
    requires g > 0 && g * p == g * q
    ensures p == q
  {
    assert g * (p - q) == g * p - g * q;
    SmallMultiple(g, p - q);
  }

  lemma DivExact(b: nat, g: nat, j: int)
    requires g > 0 && b == g * j
    ensures b / g == j
  {
    var q, r := b / g, b % g;
    assert b == g * q + r;
    assert g * (j - q) == g * j - g * q;
    SmallMultiple(g, j - q);
  }

  function Lcm(a: nat, b: nat): int
    requires a > 0 && b > 0
  {
    a * (b / Gcd(a, b))
  }

  lemma LcmPositive(a: nat, b: nat)
    requires a > 0 && b > 0
    ensures Lcm(a, b) > 0
  {
    var i, j := GcdDivides(a, b);
    var g := Gcd(a, b);
    DivExact(b, g, j);
    PositiveFactor(g, j);
    AtLeast(a, j);
  }

  lemma PositiveFactor(g: int, j: int)
    requires g > 0 && g * j > 0
    ensures j > 0
  {
    AtLeast(g, -j);
    assert g * -j == -(g * j);
  }

  lemma DividesMul(d: int, q: int, k: int)
    requires q == d * k
    ensures Divides(d, q)
  {
    assert q == Times(d, k);
  }

  /** A multiple of a and of b is a multiple of their least common multiple. */
  lemma CommonMultiple(a: nat, b: nat, q: int, s: int, t: int)
    requires a > 0 && b > 0 && q == a * s && q == b * t
    ensures Divides(Lcm(a, b), q)
  {
    var g := Gcd(a, b);
    var x, y := Bezout(a, b);
    var i, j := GcdDivides(a, b);
    DivExact(b, g, j);
    var m := t * x + s * y;
    CommonStep(a, b, q, s, t, x, y, g);
    assert a * b * m == g * (a * j * m) by {
      assert a * b * m == a * (g * j) * m;
      Shuffle(a, g, j, m);
    }
    Cancel(g, q, a * j * m);
    DividesMul(a * j, q, m);
  }

  lemma CommonStep(a: int, b: int, q: int, s: int, t: int, x: int, y: int, g: int)
    requires g == a * x + b * y && q == a * s && q == b * t
    ensures g * q == a * b * (t * x + s * y)
  {
    calc {
      g * q;
      (a * x + b * y) * q;
      a * x * q + b * y * q;
      a * x * (b * t) + b * y * (a * s);
      { Shuffle2(a, b, x, t); Shuffle2(b, a, y, s); }
      a * b * (t * x) + a * b * (s * y);
      a * b * (t * x + s * y);
    }
  }

  lemma Shuffle(a: int, g: int, j: int, m: int)
    ensures a * (g * j) * m == g * (a * j * m)
  {
    assert a * (g * j) == g * (a * j);
  }

  lemma Shuffle2(a: int, b: int, x: int, t: int)
    ensures a * x * (b * t) == a * b * (t * x)
  {
    calc {
      a * x * (b * t);
      a * (x * (b * t));
      { assert x * (b * t) == b * (t * x); }
      a * (b * (t * x));
      a * b * (t * x);
    }
  }

  /** A multiple of the least common multiple is a multiple of both. */
  lemma LcmMultiple(a: nat, b: nat, q: int, k: int)
    requires a > 0 && b > 0 && q == Lcm(a, b) * k
    ensures Divides(a, q) && Divides(b, q)
  {
    var g := Gcd(a, b);
    var i, j := GcdDivides(a, b);
    DivExact(b, g, j);
    assert q == a * (j * k) by { assert a * j * k == a * (j * k); }
    DividesMul(a, q, j * k);
    assert q == b * (i * k) by {
      assert a * j * k == g * i * j * k;
      assert g * i * j * k == (g * j) * (i * k) by { Shuffle3(g, i, j, k); }
    }
    DividesMul(b, q, i * k);
  }

  lemma Shuffle3(g: int, i: int, j: int, k: int)
    ensures g * i * j * k == (g * j) * (i * k)
  {
    calc {
      g * i * j * k;
      g * (i * j) * k;
      { assert i * j == j * i; }
      g * (j * i) * k;
      (g * j) * i * k;
      (g * j) * (i * k);
    }
  }

  /** The least common multiple divides exactly the common multiples. */
  lemma LcmExactly(a: nat, b: nat, q: int)
    requires a > 0 && b > 0
    ensures Divides(Lcm(a, b), q) <==> Divides(a, q) && Divides(b, q)
  {
    if Divides(Lcm(a, b), q) {
      var k :| q == Times(Lcm(a, b), k);
      LcmMultiple(a, b, q, k);
    }
    if Divides(a, q) && Divides(b, q) {
      var s :| q == Times(a, s);
      var t :| q == Times(b, t);
      CommonMultiple(a, b, q, s, t);
    }
  }

  /** The least multiple of d at or above from, by Euclidean division. */
  function FirstMultiple(from: int, d: nat): int
    requires d > 0
  {
    -((-from) / d) * d
  }

  lemma FirstMultipleLeast(from: int, d: nat)
    requires d > 0
    ensures FirstMultiple(from, d) >= from && Divides(d, FirstMultiple(from, d))
    ensures forall q :: q >= from && Divides(d, q) ==> q >= FirstMultiple(from, d)
  {
    var n := -((-from) / d);
    var first := FirstMultiple(from, d);
    assert first == d * n;
    DividesMul(d, first, n);
    assert -from == d * ((-from) / d) + (-from) % d;
    assert d * n == from + (-from) % d by { assert d * ((-from) / d) == -(d * n); }
    forall q | q >= from && Divides(d, q) ensures q >= first {
      var k :| q == Times(d, k);
      FirstStep(d, from, n, k);
    }
  }

  lemma FirstStep(d: int, from: int, n: int, k: int)
    requires d > 0 && d * n < from + d && d * k >= from
    ensures d * k >= d * n
  {
    Gap(d, n, k);
    Between(d, d * n, d * k, from, n <= k);
  }

  /** Two multiples are in the order of their factors, and a factor apart. */
  lemma Gap(d: int, n: int, k: int)
    requires d > 0
    ensures if n <= k then d * n <= d * k else d * n >= d * k + d
  {
    AtLeast(d, n - k);
    AtLeast(d, k - n);
    assert d * (n - k) == d * n - d * k;
    assert d * (k - n) == d * k - d * n;
  }

  lemma Between(d: int, a: int, b: int, from: int, ordered: bool)
    requires (if ordered then a <= b else a >= b + d) && a < from + d && b >= from
    ensures b >= a
  {
  }
}
