/** A commit is safe exactly when no temporary can take the path of another of
    its files. */
module Clashes {
  import opened Disk
  import opened TempNames
  import opened Stages
  import opened Renaming
  import opened Generation

  // ---- Staging can go on ----

  /** The missing directories up to dir can be made. */
  lemma {:induction false} RoomAt(t: Tree, dir: Path) returns (more: seq<Path>, u: Tree)
    requires WellFormed(t) && Passable(t, dir)
    ensures Extends(t, u, more, {}) && Ordered(more) && dir in u && u[dir] == Dir
    ensures forall p :: p in more ==> p <= dir
    decreases |dir|
  {
    if dir in t {
      assert dir[..|dir|] == dir;
      more, u := [], t;
    } else {
      var up := Parent(dir);
      assert forall i :: 0 <= i <= |up| ==> up[..i] == dir[..i];
      more, u := RoomAt(t, up);
      AddDir(t, u, more, dir);
      more, u := more + [dir], u[dir := Dir];
    }
  }

  /** n draws a name for the temporary of f that nothing uses or needs. */
  ghost predicate Draws(start: Tree, files: seq<Output>, f: Output, n: uint32)
    requires f.path != []
  {
    var tmp := TempName(f.path, Base36(n));
    tmp !in start && tmp !in PathsOf(files) && !OnTheWay(files, tmp)
  }

  ghost predicate Spare(start: Tree, files: seq<Output>, k: nat)
    requires k < |files|
  {
    files[k].path != [] ==> exists n: uint32 :: Draws(start, files, files[k], n)
  }

  /** Every file has such a name. */
  ghost predicate Roomy(start: Tree, files: seq<Output>) {
    forall k: nat {:trigger Spare(start, files, k)} :: k < |files| ==> Spare(start, files, k)
  }

  /** The directories above the files. */
  ghost function Ways(files: seq<Output>): set<Path> {
    set g, k | g in files && 0 <= k < |g.path| :: g.path[..k]
  }

  lemma AboveIsPrefix(p: Path, q: Path)
    ensures Below(p, q) ==> |p| < |q| && p == q[..|p|]
  {
  }

  lemma NotOnTheWay(files: seq<Output>, p: Path)
    requires p !in Ways(files)
    ensures !OnTheWay(files, p)
  {
    forall g | g in files ensures !Below(p, g.path) { AboveIsPrefix(p, g.path); }
  }

  /** A tree with fewer than 2^32 names in use or needed has room. */
  lemma SmallIsRoomy(start: Tree, files: seq<Output>)
    requires |start.Keys + PathsOf(files) + Ways(files)| < 0x1_0000_0000
    ensures Roomy(start, files)
  {
    forall k: nat | k < |files| && files[k].path != [] ensures Spare(start, files, k) {
      var n := FreshTemp(files[k].path, start.Keys + PathsOf(files) + Ways(files), 0);
      NotOnTheWay(files, TempName(files[k].path, Base36(n)));
      assert Draws(start, files, files[k], n);
    }
  }

  /** A name drawn for a file not yet staged is in use by nothing. */
  lemma DrawnUnused(start: Tree, files: seq<Output>, n: nat, s: State, from: seq<nat>, k: uint32)
    requires n < |files| && files[n].path != [] && Reached(start, files, n, s, from) && DistinctPaths(files)
    requires Draws(start, files, files[n], k)
    ensures TempName(files[n].path, Base36(k)) !in s.tree
  {
    var tmp := TempName(files[n].path, Base36(k));
    IsTemp(files[n].path, k);
    NotYetStaged(start, files, s, from, n);
    if tmp in TempsFrom(s.staged, 0) { OthersTemp(start, s, tmp, files[n].path); }
  }

  /** The name under which file n is staged so that file i takes the path of
      file j and no other temporary is in anyone's way. */
  lemma ChooseName(start: Tree, files: seq<Output>, i: nat, j: nat, n: nat, s: State, from: seq<nat>)
    returns (tmp: Path)
    requires n < |files| && j < |files| && files[n].path != [] && Reached(start, files, n, s, from)
    requires DistinctPaths(files) && Roomy(start, files)
    requires n == i ==>
      IsTempOf(files[j].path, files[n].path) && files[j].path !in s.tree && !OnTheWay(files, files[j].path)
    ensures IsTempOf(tmp, files[n].path) && tmp !in s.tree && !OnTheWay(files, tmp)
    ensures if n == i then tmp == files[j].path else tmp !in PathsOf(files)
  {
    if n == i {
      tmp := files[j].path;
    } else {
      assert Spare(start, files, n);
      var k: uint32 :| Draws(start, files, files[n], k);
      tmp := TempName(files[n].path, Base36(k));
      IsTemp(files[n].path, k);
      DrawnUnused(start, files, n, s, from, k);
    }
  }

  /** The directories made for a file take no name that is not on the way. */
  lemma RoomLeaves(files: seq<Output>, f: Output, t: Tree, u: Tree, more: seq<Path>, p: Path)
    requires f in files && f.path != [] && Extends(t, u, more, {}) && !OnTheWay(files, p) && p !in t
    requires forall q :: q in more ==> q <= Parent(f.path)
    ensures p !in u
  {
    if p in more { assert Below(p, f.path); }
  }

  // ---- A run in which a temporary takes the path of another file ----

  /** File i, once staged, waits under the path of file j, and no other
      temporary takes the path of a file. */
  ghost predicate Named(files: seq<Output>, i: nat, j: nat, s: State, from: seq<nat>)
    requires j < |files|
  {
    && |from| == |s.staged|
    && forall x :: 0 <= x < |from| ==>
         if from[x] == i then s.staged[x].tmp == files[j].path else s.staged[x].tmp !in PathsOf(files)
  }

  /** The first n files are staged so, file j only if it comes first. */
  ghost predicate Clashing(start: Tree, files: seq<Output>, i: nat, j: nat, n: nat, s: State, from: seq<nat>)
    requires j < |files| && n <= |files|
  {
    && Reached(start, files, n, s, from) && WaysFree(files, s) && Named(files, i, j, s, from)
    && Whether(i, j, n, from)
  }

  /** The path of a file is in the tree only from the start, or, for file j,
      once file i is staged. */
  lemma PathTaken(start: Tree, files: seq<Output>, i: nat, j: nat, n: nat, s: State, from: seq<nat>, k: nat)
    requires j < |files| && n <= |files| && k < |files| && Stageable(start, files)
    requires Clashing(start, files, i, j, n, s, from)
    ensures files[k].path in s.tree && files[k].path !in start ==> i in from && files[k].path == files[j].path
  {
    if files[k].path in s.tree && files[k].path !in start {
      NotMade(start, files, s.made, files[k]);
      var x :| 0 <= x < |s.staged| && s.staged[x].tmp == files[k].path;
      assert files[k].path in PathsOf(files);
    }
  }

  /** File i is not skipped, and file j is skipped exactly after file i. */
  lemma SkipsRight(start: Tree, files: seq<Output>, i: nat, j: nat, n: nat, s: State, from: seq<nat>)
    requires i < |files| && j < |files| && n < |files| && Stageable(start, files)
    requires ClashAt(start, files, i, j) && Clashing(start, files, i, j, n, s, from)
    ensures n == i ==> !(files[n].once && files[n].path in s.tree)
    ensures n == j ==> (files[n].once && files[n].path in s.tree <==> i < j)
    ensures i != j
  {
    TempBeside(files[j].path, files[i].path);
    PathTaken(start, files, i, j, n, s, from, n);
    if n == j && i < j {
      var x :| 0 <= x < |from| && from[x] == i;
      assert Waits(start, s.tree, s.staged[x]);
    }
  }

  /** The next file is staged. */
  lemma ClashStage(start: Tree, files: seq<Output>, i: nat, j: nat, n: nat, s: State, from: seq<nat>)
    returns (next: State, tmp: Path)
    requires i < |files| && j < |files| && n < |files| && Stageable(start, files) && Roomy(start, files)
    requires ClashAt(start, files, i, j) && Clashing(start, files, i, j, n, s, from)
    requires !(files[n].once && files[n].path in s.tree)
    ensures StepsTo(s, files[n], next) && next.staged == s.staged + [Staged(tmp, files[n].path, files[n])]
    ensures !OnTheWay(files, tmp) && (if n == i then tmp == files[j].path else tmp !in PathsOf(files))
  {
    var f := files[n];
    StillFits(start, s, files, f);
    StillPassable(start, s, files, f);
    if n == i { PathFree(start, files, i, j, s, from); }
    tmp := ChooseName(start, files, i, j, n, s, from);
    var more, u := RoomAt(s.tree, Parent(f.path));
    RoomLeaves(files, f, s.tree, u, more, tmp);
    next := State(u[tmp := File(f.body)], s.made + more, s.staged + [Staged(tmp, f.path, f)]);
    assert StagedAs(s, f, next, more, u, tmp);
  }

  lemma PathFree(start: Tree, files: seq<Output>, i: nat, j: nat, s: State, from: seq<nat>)
    requires i < |files| && j < |files| && Stageable(start, files)
    requires ClashAt(start, files, i, j) && Clashing(start, files, i, j, i, s, from)
    ensures files[j].path !in s.tree && !OnTheWay(files, files[j].path)
  {
    assert Fits(start, files, files[j]);
    PathTaken(start, files, i, j, i, s, from, j);
  }

  lemma NamedOn(files: seq<Output>, i: nat, j: nat, n: nat, s: State, from: seq<nat>, next: State, tmp: Path)
    requires n < |files| && j < |files| && Named(files, i, j, s, from)
    requires next.staged == s.staged + [Staged(tmp, files[n].path, files[n])]
    requires if n == i then tmp == files[j].path else tmp !in PathsOf(files)
    ensures Named(files, i, j, next, from + [n])
  {
    var more := from + [n];
    forall x | 0 <= x < |more|
      ensures if more[x] == i then next.staged[x].tmp == files[j].path else next.staged[x].tmp !in PathsOf(files)
    {
      if x < |from| { assert more[x] == from[x] && next.staged[x] == s.staged[x]; }
    }
  }

  lemma WaysOn(files: seq<Output>, s: State, next: State, added: Staged)
    requires WaysFree(files, s) && next.staged == s.staged + [added] && !OnTheWay(files, added.tmp)
    ensures WaysFree(files, next)
  {
    TempsMore(s.staged, added);
  }

  /** Which of the two files are staged among the first n. */
  ghost predicate Whether(i: nat, j: nat, n: nat, from: seq<nat>) {
    (i < n ==> i in from) && (j < n ==> (j in from <==> j < i)) && forall x :: x in from ==> x < n
  }

  lemma WhetherOn(i: nat, j: nat, n: nat, from: seq<nat>, skipped: bool)
    requires Whether(i, j, n, from) && i != j && (n == i ==> !skipped) && (n == j ==> (skipped <==> i < j))
    ensures Whether(i, j, n + 1, if skipped then from else from + [n])
  {
    assert (from + [n])[|from|] == n;
    assert forall x :: x in from + [n] <==> x in from || x == n;
  }

  /** Files that can be staged, the i-th under the path of the j-th. */
  ghost predicate Exposed(start: Tree, files: seq<Output>, i: nat, j: nat) {
    && i < |files| && j < |files| && WellFormed(start) && Stageable(start, files) && Roomy(start, files)
    && ClashAt(start, files, i, j)
  }

  lemma ClashOn(start: Tree, files: seq<Output>, i: nat, j: nat, n: nat, s: State, from: seq<nat>)
    returns (next: State, more: seq<nat>)
    requires Exposed(start, files, i, j) && n < |files| && Clashing(start, files, i, j, n, s, from)
    ensures StepsTo(s, files[n], next) && Clashing(start, files, i, j, n + 1, next, more)
  {
    SkipsRight(start, files, i, j, n, s, from);
    var skipped := files[n].once && files[n].path in s.tree;
    WhetherOn(i, j, n, from, skipped);
    if skipped {
      next := s;
      more := ReachNext(start, files, n, s, from, next);
    } else {
      var tmp: Path;
      next, tmp := ClashStage(start, files, i, j, n, s, from);
      more := ReachNext(start, files, n, s, from, next);
      WaysOn(files, s, next, Staged(tmp, files[n].path, files[n]));
      NamedOn(files, i, j, n, s, from, next, tmp);
    }
  }

  /** The run on states ends with s. */
  ghost predicate RunsTo(start: Tree, files: seq<Output>, states: seq<State>, s: State) {
    IsRun(start, files, states) && states[|states| - 1] == s
  }

  lemma RunsOn(start: Tree, files: seq<Output>, states: seq<State>, s: State, next: State)
    requires RunsTo(start, files, states, s) && |states| <= |files| && StepsTo(s, files[|states| - 1], next)
    ensures RunsTo(start, files, states + [next], next)
  {
    RunOn(start, files, states, next);
  }

  /** A run on states has staged the first n files so. */
  ghost predicate RunsInto(start: Tree, files: seq<Output>, i: nat, j: nat, n: nat, states: seq<State>, s: State,
                           from: seq<nat>)
    requires j < |files| && n <= |files|
  {
    RunsTo(start, files, states, s) && |states| == n + 1 && Clashing(start, files, i, j, n, s, from)
  }

  lemma ClashStart(start: Tree, files: seq<Output>, i: nat, j: nat)
    requires j < |files| && WellFormed(start)
    ensures RunsInto(start, files, i, j, 0, [State(start, [], [])], State(start, [], []), [])
  {
    ReachStart(start, files);
  }

  lemma ClashNext(start: Tree, files: seq<Output>, i: nat, j: nat, n: nat, before: seq<State>, prior: State,
                  seen: seq<nat>)
    returns (states: seq<State>, s: State, from: seq<nat>)
    requires Exposed(start, files, i, j) && n < |files| && RunsInto(start, files, i, j, n, before, prior, seen)
    ensures RunsInto(start, files, i, j, n + 1, states, s, from)
  {
    s, from := ClashOn(start, files, i, j, n, prior, seen);
    RunsOn(start, files, before, prior, s);
    states := before + [s];
  }

  lemma {:induction false} ClashRun(start: Tree, files: seq<Output>, i: nat, j: nat, n: nat)
    returns (states: seq<State>, s: State, from: seq<nat>)
    requires Exposed(start, files, i, j) && n <= |files|
    ensures RunsInto(start, files, i, j, n, states, s, from)
  {
    if n == 0 {
      s := State(start, [], []);
      states, from := [s], [];
      ClashStart(start, files, i, j);
    } else {
      var before, prior, seen := ClashRun(start, files, i, j, n - 1);
      states, s, from := ClashNext(start, files, i, j, n - 1, before, prior, seen);
    }
  }

  /** No file staged from file i on has the path of file j. */
  lemma NotRewritten(files: seq<Output>, i: nat, j: nat, from: seq<nat>, m: nat, k: nat)
    requires j < |files| && DistinctPaths(files) && (j in from <==> j < i)
    requires m <= k < |from| && i == from[m] <= from[k] < |files| && i != j
    ensures files[from[k]].path != files[j].path
  {
    assert from[k] in from;
  }

  /** The renames leave nothing at the path of file j. */
  lemma Lost(start: Tree, files: seq<Output>, i: nat, j: nat, s: State, from: seq<nat>, trees: seq<Tree>)
    requires i < |files| && j < |files| && i != j && DistinctPaths(files)
    requires Clashing(start, files, i, j, |files|, s, from)
    requires Renames(s.tree, s.staged, trees) && |trees| == |s.staged| + 1
    ensures files[j].path !in trees[|s.staged|]
  {
    var m :| 0 <= m < |from| && from[m] == i;
    forall k | m <= k < |s.staged| ensures s.staged[k].target != s.staged[m].tmp {
      NamedAs(start, files, s, from, k);
      StagedLater(from, m, k);
      NotRewritten(files, i, j, from, m, k);
    }
    Vanishes(s.tree, s.staged, trees, m, |s.staged|);
  }

  lemma RenamesFollow(start: Tree, files: seq<Output>, s: State, from: seq<nat>) returns (trees: seq<Tree>)
    requires Stageable(start, files) && Reached(start, files, |files|, s, from)
    ensures Renames(s.tree, s.staged, trees) && |trees| == |s.staged| + 1
  {
    StagedReady(start, files, s, from);
    StagingPending(start, s);
    trees := RenamesExist(s.tree, s.staged, |s.staged|);
  }

  lemma Completed(start: Tree, files: seq<Output>, states: seq<State>, s: State, trees: seq<Tree>)
    requires RunsTo(start, files, states, s) && |states| == |files| + 1
    requires Renames(s.tree, s.staged, trees) && |trees| == |s.staged| + 1
    ensures Completes(start, files, trees[|s.staged|])
  {
    assert CompletesBy(start, files, states, trees);
  }

  /** Where a clash is possible, some commit completes and loses a file. */
  lemma ClashLoses(start: Tree, files: seq<Output>, i: nat, j: nat) returns (final: Tree)
    requires i < |files| && j < |files| && WellFormed(start) && Stageable(start, files) && Roomy(start, files)
    requires ClashAt(start, files, i, j)
    ensures Completes(start, files, final) && files[j].path !in final
    ensures !Committed(start, final, files, files[j])
  {
    var states, s, from := ClashRun(start, files, i, j, |files|);
    var trees := RenamesFollow(start, files, s, from);
    final := trees[|s.staged|];
    Completed(start, files, states, s, trees);
    TempBeside(files[j].path, files[i].path);
    Lost(start, files, i, j, s, from, trees);
  }

  /** Every commit of the files that completes leaves them all committed. */
  ghost predicate Safe(start: Tree, files: seq<Output>) {
    forall final :: Completes(start, files, final) ==> AllCommitted(start, final, files)
  }

  /** A commit is safe exactly when no temporary can take the path of a file
      that is then lost. */
  lemma SafeExactly(start: Tree, files: seq<Output>)
    requires WellFormed(start) && Stageable(start, files) && Roomy(start, files)
    ensures Safe(start, files) <==> !Clash(start, files)
  {
    if Clash(start, files) {
      var i: nat, j: nat :| i < |files| && j < |files| && ClashAt(start, files, i, j);
      var final := ClashLoses(start, files, i, j);
      assert files[j] in files;
    } else {
      forall final | Completes(start, files, final) ensures AllCommitted(start, final, files) {
        CompletedCommitted(start, files, final);
      }
    }
  }

  /** A tree with a root alone. */
  function Bare(): Tree { map[[] := Dir] }

  /** In an empty tree, a file named as the temporary of a file after it. */
  function ClashingPair(name: string, n: uint32, first: Body, second: Body): seq<Output> {
    [Output(TempName([name], Base36(n)), first, false), Output([name], second, false)]
  }

  /** One such commit completes and loses the first of the two files. */
  lemma PairLosesFile(name: string, n: uint32, first: Body, second: Body) returns (final: Tree)
    ensures Completes(Bare(), ClashingPair(name, n, first, second), final)
    ensures ClashingPair(name, n, first, second)[0].path !in final
  {
    var files := ClashingPair(name, n, first, second);
    IsTemp([name], n);
    TempBeside(files[0].path, [name]);
    PairStageable(files);
    PairRoomy(files);
    final := ClashLoses(Bare(), files, 1, 0);
  }

  lemma PairStageable(files: seq<Output>)
    requires |files| == 2 && |files[0].path| == |files[1].path| == 1 && files[0].path != files[1].path
    ensures WellFormed(Bare()) && Stageable(Bare(), files)
  {
    assert Seated(Bare(), []);
    forall f | f in files ensures Fits(Bare(), files, f) {
      assert Parent(f.path) == [];
      forall g | g in files ensures !Below(f.path, g.path) { assert Parent(g.path) == []; }
    }
  }

  lemma PairRoomy(files: seq<Output>)
    requires |files| == 2 && |files[0].path| == |files[1].path| == 1
    ensures Roomy(Bare(), files)
  {
    assert files[0] in files && files[1] in files;
    assert Bare().Keys + PathsOf(files) + Ways(files) == {[], files[0].path, files[1].path};
    SmallIsRoomy(Bare(), files);
  }
}
