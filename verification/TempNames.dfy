/** The names of the temporaries a commit writes beside its targets. */
module TempNames {
  import opened Disk

  /** The random numbers drawn for names. */
  type uint32 = n: nat | n < 0x1_0000_0000

  function Digit36(d: nat): char
    requires d < 36
  {
    if d < 10 then '0' + d as char else 'a' + (d - 10) as char
  }

  /** The digits of n in base 36. */
  function Base36(n: nat): string {
    if n < 36 then [Digit36(n)] else Base36(n / 36) + [Digit36(n % 36)]
  }

  /** The name of a temporary beside target. */
  function TempName(target: Path, suffix: string): Path
    requires target != []
  {
    Parent(target) + ["." + target[|target| - 1] + "." + suffix + ".tmp"]
  }

  /** tmp is a name the temporary of target may take. */
  ghost predicate IsTempOf(tmp: Path, target: Path) {
    target != [] && exists n: uint32 :: tmp == TempName(target, Base36(n))
  }

  lemma IsTemp(target: Path, n: uint32)
    requires target != []
    ensures IsTempOf(TempName(target, Base36(n)), target)
  {
  }

  /** A temporary stands beside its target under another name. */
  lemma TempBeside(tmp: Path, target: Path)
    ensures IsTempOf(tmp, target) ==> |tmp| == |target| && Parent(tmp) == Parent(target) && tmp != target
  {
    if IsTempOf(tmp, target) {
      var n: uint32 :| tmp == TempName(target, Base36(n));
      assert tmp[|tmp| - 1] == "." + target[|target| - 1] + "." + Base36(n) + ".tmp";
      assert |tmp[|tmp| - 1]| > |target[|target| - 1]|;
    }
  }

  // ---- A temporary's name tells its target and its number ----

  function Value36(c: char): int {
    if '0' <= c <= '9' then c as int - '0' as int else c as int - 'a' as int + 10
  }

  function Read36(s: string): int {
    if s == [] then 0 else Read36(s[..|s| - 1]) * 36 + Value36(s[|s| - 1])
  }

  /** The number is read back digit by digit, and no digit is a dot. */
  lemma {:induction false} ReadBase36(n: nat)
    ensures Read36(Base36(n)) == n && '.' !in Base36(n)
  {
    var s := Base36(n);
    if n >= 36 {
      ReadBase36(n / 36);
      assert s[..|s| - 1] == Base36(n / 36);
    }
  }

  /** The last dot before a text without dots is where it says. */
  lemma DotUnique(a: string, b: string, s: string, t: string)
    requires '.' !in s && '.' !in t && a + "." + s == b + "." + t
    ensures a == b && s == t
  {
    if |a| < |b| {
      LaterDot(a, b, s, t);
    } else if |b| < |a| {
      LaterDot(b, a, t, s);
    } else {
      var x, y := a + "." + s, b + "." + t;
      assert a == x[..|a|] && b == y[..|b|] && s == x[|a| + 1..] && t == y[|b| + 1..];
    }
  }

  lemma LaterDot(a: string, b: string, s: string, t: string)
    requires |a| < |b| && a + "." + s == b + "." + t
    ensures '.' in s
  {
    assert (b + "." + t)[|b|] == '.';
    assert (a + "." + s)[|b|] == s[|b| - |a| - 1];
  }

  lemma Unwrap(head: string, a: string, b: string, dot: string, s: string, t: string, tail: string)
    requires head + a + dot + s + tail == head + b + dot + t + tail
    ensures a + dot + s == b + dot + t
  {
    var x, y := a + dot + s, b + dot + t;
    var whole := head + a + dot + s + tail;
    assert |x| == |y|;
    assert whole[|head|..|head| + |x|] == x;
    assert (head + b + dot + t + tail)[|head|..|head| + |y|] == y;
  }

  lemma NameTells(a: string, m: nat, b: string, n: nat)
    requires "." + a + "." + Base36(m) + ".tmp" == "." + b + "." + Base36(n) + ".tmp"
    ensures a == b && m == n
  {
    Unwrap(".", a, b, ".", Base36(m), Base36(n), ".tmp");
    ReadBase36(m);
    ReadBase36(n);
    DotUnique(a, b, Base36(m), Base36(n));
  }

  lemma LastName(target: Path, n: nat)
    requires target != []
    ensures var p := TempName(target, Base36(n));
      p[|p| - 1] == "." + target[|target| - 1] + "." + Base36(n) + ".tmp" && p[..|p| - 1] == Parent(target)
  {
  }

  lemma TempTells(a: Path, m: nat, b: Path, n: nat)
    requires a != [] && b != [] && TempName(a, Base36(m)) == TempName(b, Base36(n))
    ensures a == b && m == n
  {
    LastName(a, m);
    LastName(b, n);
    NameTells(a[|a| - 1], m, b[|b| - 1], n);
    assert a == Parent(a) + [a[|a| - 1]] && b == Parent(b) + [b[|b| - 1]];
  }

  lemma TempInjective(tmp: Path, a: Path, b: Path)
    requires IsTempOf(tmp, a) && IsTempOf(tmp, b)
    ensures a == b
  {
    var m: uint32 :| tmp == TempName(a, Base36(m));
    var n: uint32 :| tmp == TempName(b, Base36(n));
    TempTells(a, m, b, n);
  }

  /** Some name of the temporary is in no set with fewer than 2^32 names. */
  lemma {:induction false} FreshTemp(target: Path, used: set<Path>, least: nat) returns (n: uint32)
    requires target != [] && least + |used| < 0x1_0000_0000
    ensures n >= least && TempName(target, Base36(n)) !in used
    decreases |used|
  {
    var tmp := TempName(target, Base36(least));
    if tmp in used {
      n := FreshTemp(target, used - {tmp}, least + 1);
      if TempName(target, Base36(n)) == tmp { TempTells(target, n, target, least); }
    } else {
      n := least;
    }
  }

  /** The temporary of `a.go` for 0 is `.a.go.0.tmp`, in the same directory, and
      numbers are written in lower-case base 36. */
  lemma TempNameSample(dir: Path)
    ensures TempName(dir + ["a.go"], Base36(0)) == dir + [".a.go.0.tmp"]
    ensures Base36(35) == "z" && Base36(36) == "10" && Base36(1_295) == "zz"
  {
    assert Parent(dir + ["a.go"]) == dir;
    assert Base36(0) == "0";
    assert "." + "a.go" + "." + "0" + ".tmp" == ".a.go.0.tmp";
    assert Base36(36) == Base36(1) + [Digit36(0)] && Base36(1) == "1";
    assert Base36(1_295) == Base36(35) + [Digit36(35)];
  }
}
