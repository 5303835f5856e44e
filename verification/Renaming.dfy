/** Renaming the temporaries of staged files over their targets. */
module Renaming {
  import opened Disk
  import opened TempNames
  import opened Stages

  // ---- The steps ----

  /** Handling s leads from t to u: the temporary is renamed over its target,
      or, when s is gen-once and its target has been taken, removed. */
  ghost predicate Handles(t: Tree, s: Staged, u: Tree) {
    && s.tmp in t
    && ((s.file.once && s.target in t && u == t - {s.tmp})
        || ((s.target in t ==> t[s.target].File?) && u == t[s.target := t[s.tmp]] - {s.tmp}))
  }

  /** trees[i] is the tree once the first i staged files are handled. */
  ghost predicate Renames(mid: Tree, staged: seq<Staged>, trees: seq<Tree>) {
    && 0 < |trees| <= |staged| + 1 && trees[0] == mid
    && forall i: nat {:trigger HandlesAt(staged, trees, i)} :: i < |trees| - 1 ==> HandlesAt(staged, trees, i)
  }

  ghost predicate HandlesAt(staged: seq<Staged>, trees: seq<Tree>, i: nat)
    requires i < |staged| && i < |trees| - 1
  {
    Handles(trees[i], staged[i], trees[i + 1])
  }

  lemma RenamesOn(mid: Tree, staged: seq<Staged>, trees: seq<Tree>, u: Tree)
    requires Renames(mid, staged, trees) && |trees| <= |staged|
    requires Handles(trees[|trees| - 1], staged[|trees| - 1], u)
    ensures Renames(mid, staged, trees + [u])
  {
    var on := trees + [u];
    forall i: nat | i < |on| - 1 ensures HandlesAt(staged, on, i) {
      if i < |trees| - 1 { assert HandlesAt(staged, trees, i); }
    }
  }

  /** The temporaries from i on are there, each its own file. */
  ghost predicate Pending(tree: Tree, staged: seq<Staged>, i: nat) {
    && (forall j :: i <= j < |staged| ==> staged[j].tmp in tree && tree[staged[j].tmp].File?)
    && (forall j :: 0 <= j < |staged| ==> staged[j].tmp != staged[j].target)
    && (forall j, k :: 0 <= j < k < |staged| ==> staged[j].tmp != staged[k].tmp)
  }

  lemma HandlePending(tree: Tree, staged: seq<Staged>, i: nat, u: Tree)
    requires i < |staged| && Pending(tree, staged, i) && Handles(tree, staged[i], u)
    ensures Pending(u, staged, i + 1)
  {
  }

  /** One temporary less is left to remove. */
  lemma DropOne(tree: Tree, staged: seq<Staged>, j: nat)
    requires j < |staged| && Pending(tree, staged, j) && WellFormed(tree)
    ensures Removable(tree, staged[j].tmp) && Pending(tree - {staged[j].tmp}, staged, j + 1)
    ensures (tree - {staged[j].tmp}) - TempsFrom(staged, j + 1) == tree - TempsFrom(staged, j)
  {
    FileRemovable(tree, staged[j].tmp);
    Advance(staged, j);
  }

  lemma NoneWaits(t: Tree, staged: seq<Staged>)
    ensures t - TempsFrom(staged, |staged|) == t
  {
  }

  lemma StagingPending(start: Tree, s: State)
    requires StagingAt(start, s)
    ensures Pending(s.tree, s.staged, 0)
  {
    forall j | 0 <= j < |s.staged| ensures s.staged[j].tmp != s.staged[j].target && s.staged[j].tmp in s.tree {
      assert Waits(start, s.tree, s.staged[j]);
      TempBeside(s.staged[j].tmp, s.staged[j].target);
    }
    forall j | 0 <= j < |s.staged| ensures s.tree[s.staged[j].tmp].File? { assert Waits(start, s.tree, s.staged[j]); }
    forall j, k | 0 <= j < k < |s.staged| ensures s.staged[j].tmp != s.staged[k].tmp { assert Differ(s.staged, j, k); }
  }

  // ---- Renames that can go through ----

  /** The same directories stand in both trees. */
  ghost predicate SameDirs(t: Tree, u: Tree) {
    forall p :: (p in t && t[p].Dir?) <==> (p in u && u[p].Dir?)
  }

  lemma HandleDirs(t: Tree, s: Staged, u: Tree)
    requires Handles(t, s, u) && t[s.tmp].File?
    ensures SameDirs(t, u)
  {
  }

  /** Every target stands in a directory and is none itself. */
  ghost predicate Ready(mid: Tree, staged: seq<Staged>) {
    forall i :: 0 <= i < |staged| ==> ReadyFor(mid, staged[i].target)
  }

  predicate ReadyFor(t: Tree, target: Path) { Seated(t, target) && (target in t ==> t[target].File?) }

  lemma StillReady(mid: Tree, tree: Tree, target: Path)
    requires ReadyFor(mid, target) && SameDirs(mid, tree)
    ensures ReadyFor(tree, target)
  {
    assert tree[Parent(target)].Dir?;
  }

  /** Where every target is ready, all renames can go through. */
  lemma {:induction false} RenamesExist(mid: Tree, staged: seq<Staged>, n: nat) returns (trees: seq<Tree>)
    requires Pending(mid, staged, 0) && Ready(mid, staged) && n <= |staged|
    ensures Renames(mid, staged, trees) && |trees| == n + 1
    ensures Pending(trees[n], staged, n) && SameDirs(mid, trees[n])
  {
    if n == 0 {
      trees := [mid];
    } else {
      var before := RenamesExist(mid, staged, n - 1);
      var t, s := before[n - 1], staged[n - 1];
      StillReady(mid, t, s.target);
      var u := t[s.target := t[s.tmp]] - {s.tmp};
      assert Handles(t, s, u);
      RenamesOn(mid, staged, before, u);
      HandlePending(t, staged, n - 1, u);
      HandleDirs(t, s, u);
      trees := before + [u];
    }
  }

  // ---- What the renames leave ----

  /** The tree the renames start from: start and the directories made. */
  ghost function Base(start: Tree, made: seq<Path>): Tree {
    start + map p | p in made :: Dir
  }

  ghost predicate DistinctTargets(staged: seq<Staged>) {
    forall i, j :: 0 <= i < j < |staged| ==> staged[i].target != staged[j].target
  }

  /** Temporaries are new and apart from each other, and none takes the target
      of a file handled no later. */
  ghost predicate Apart(base: Tree, staged: seq<Staged>) {
    && (forall i, j :: 0 <= i < j < |staged| ==> staged[i].tmp != staged[j].tmp)
    && (forall i, j :: 0 <= j <= i < |staged| ==> staged[i].tmp != staged[j].target)
    && (forall i :: 0 <= i < |staged| ==> staged[i].tmp !in base)
    && (forall i :: 0 <= i < |staged| && staged[i].file.once && staged[i].target in base ==>
          base[staged[i].target] == Dir)
  }

  /** What a handled file leaves at its target. */
  ghost predicate Landed(base: Tree, tree: Tree, s: Staged) {
    && s.target in tree
    && tree[s.target] == if s.file.once && s.target in base then Dir else File(s.file.body)
  }

  /** The first i staged files are handled, the rest wait. */
  ghost predicate Applying(base: Tree, tree: Tree, staged: seq<Staged>, i: nat)
    requires i <= |staged|
  {
    && Apart(base, staged)
    && (forall j :: i <= j < |staged| ==> staged[j].tmp in tree && tree[staged[j].tmp] == File(staged[j].file.body))
    && (forall p :: p !in TempsFrom(staged, i) && p !in TargetsTo(staged, i) ==> SameAt(tree, base, p))
    && (DistinctTargets(staged) ==> forall j :: 0 <= j < i ==> Landed(base, tree, staged[j]))
  }

  /** A step that only takes the temporary of file i away and changes its
      target. */
  ghost predicate OnlyHandles(t: Tree, u: Tree, s: Staged) {
    s.tmp !in u && forall p :: p != s.tmp && p != s.target ==> SameAt(u, t, p)
  }

  lemma WaitOthers(base: Tree, t: Tree, u: Tree, staged: seq<Staged>, i: nat)
    requires i < |staged| && Applying(base, t, staged, i) && OnlyHandles(t, u, staged[i])
    ensures forall j :: i + 1 <= j < |staged| ==> staged[j].tmp in u && u[staged[j].tmp] == File(staged[j].file.body)
  {
    forall j | i + 1 <= j < |staged| ensures SameAt(u, t, staged[j].tmp) {}
  }

  lemma KeepOthers(base: Tree, t: Tree, u: Tree, staged: seq<Staged>, i: nat)
    requires i < |staged| && Applying(base, t, staged, i) && OnlyHandles(t, u, staged[i])
    ensures forall p :: p !in TempsFrom(staged, i + 1) && p !in TargetsTo(staged, i + 1) ==> SameAt(u, base, p)
  {
    Advance(staged, i);
    forall p | p !in TempsFrom(staged, i + 1) && p !in TargetsTo(staged, i + 1) ensures SameAt(u, base, p) {
      if p != staged[i].tmp { assert SameAt(t, base, p) && SameAt(u, t, p); }
    }
  }

  lemma LandOthers(base: Tree, t: Tree, u: Tree, staged: seq<Staged>, i: nat)
    requires i < |staged| && Applying(base, t, staged, i) && OnlyHandles(t, u, staged[i]) && DistinctTargets(staged)
    ensures forall j :: 0 <= j < i ==> Landed(base, u, staged[j])
  {
    forall j | 0 <= j < i ensures Landed(base, u, staged[j]) {
      assert Landed(base, t, staged[j]) && SameAt(u, t, staged[j].target);
    }
  }

  lemma ApplyingOn(base: Tree, t: Tree, u: Tree, staged: seq<Staged>, i: nat)
    requires i < |staged| && Applying(base, t, staged, i) && OnlyHandles(t, u, staged[i])
    requires DistinctTargets(staged) ==> Landed(base, u, staged[i])
    ensures Applying(base, u, staged, i + 1)
  {
    WaitOthers(base, t, u, staged, i);
    KeepOthers(base, t, u, staged, i);
    if DistinctTargets(staged) { LandOthers(base, t, u, staged, i); }
  }

  /** The tree once the temporary of file i, not renamed, is removed. */
  lemma Skipped(base: Tree, tree: Tree, staged: seq<Staged>, i: nat)
    requires i < |staged| && Applying(base, tree, staged, i)
    requires staged[i].file.once && staged[i].target in tree
    ensures Applying(base, tree - {staged[i].tmp}, staged, i + 1)
  {
    if DistinctTargets(staged) { TargetKept(base, tree, staged, i); }
    ApplyingOn(base, tree, tree - {staged[i].tmp}, staged, i);
  }

  /** With distinct targets the next target is still as in base. */
  lemma TargetKept(base: Tree, tree: Tree, staged: seq<Staged>, i: nat)
    requires i < |staged| && Applying(base, tree, staged, i) && DistinctTargets(staged)
    ensures SameAt(tree, base, staged[i].target)
  {
    var p := staged[i].target;
    assert p !in TempsFrom(staged, i);
    assert p !in TargetsTo(staged, i);
  }

  lemma Moved(base: Tree, tree: Tree, staged: seq<Staged>, i: nat)
    requires i < |staged| && Applying(base, tree, staged, i)
    requires staged[i].target in tree ==> tree[staged[i].target].File?
    ensures Applying(base, tree[staged[i].target := tree[staged[i].tmp]] - {staged[i].tmp}, staged, i + 1)
  {
    if DistinctTargets(staged) { TargetKept(base, tree, staged, i); }
    ApplyingOn(base, tree, tree[staged[i].target := tree[staged[i].tmp]] - {staged[i].tmp}, staged, i);
  }

  lemma HandleApplying(base: Tree, t: Tree, staged: seq<Staged>, i: nat, u: Tree)
    requires i < |staged| && Applying(base, t, staged, i) && Handles(t, staged[i], u)
    ensures Applying(base, u, staged, i + 1)
  {
    if staged[i].file.once && staged[i].target in t && u == t - {staged[i].tmp} {
      Skipped(base, t, staged, i);
    } else {
      Moved(base, t, staged, i);
    }
  }

  lemma {:induction false} RenamesApplying(base: Tree, mid: Tree, staged: seq<Staged>, trees: seq<Tree>, i: nat)
    requires Applying(base, mid, staged, 0) && Renames(mid, staged, trees) && i < |trees|
    ensures Applying(base, trees[i], staged, i)
  {
    if i > 0 {
      RenamesApplying(base, mid, staged, trees, i - 1);
      assert HandlesAt(staged, trees, i - 1);
      HandleApplying(base, trees[i - 1], staged, i - 1, trees[i]);
    }
  }

  /** No temporary takes the target of a file staged before its own. */
  ghost predicate Unclashed(staged: seq<Staged>) {
    forall i, j :: 0 <= j < i < |staged| ==> staged[i].tmp != staged[j].target
  }

  lemma StagingApplying(start: Tree, s: State)
    requires StagingAt(start, s) && Unclashed(s.staged)
    ensures Applying(Base(start, s.made), s.tree, s.staged, 0)
  {
    var staged := s.staged;
    StagingPending(start, s);
    StagingApart(start, s);
    forall i | 0 <= i < |staged| ensures Waits(start, s.tree, staged[i]) {}
    forall p | p !in TempsFrom(staged, 0) ensures SameAt(s.tree, Base(start, s.made), p) {}
  }

  lemma StagingApart(start: Tree, s: State)
    requires StagingAt(start, s) && Unclashed(s.staged)
    ensures Apart(Base(start, s.made), s.staged)
  {
    var staged := s.staged;
    StagingPending(start, s);
    forall i | 0 <= i < |staged| ensures staged[i].tmp !in Base(start, s.made) {
      assert staged[i] in staged[0..];
      assert staged[i].tmp in TempsFrom(staged, 0);
    }
    forall i | 0 <= i < |staged| ensures Waits(start, s.tree, staged[i]) {}
  }

  ghost predicate Spares(base: Tree, tree: Tree, staged: seq<Staged>, i: nat)
    requires i <= |staged|
  {
    forall p :: p !in TargetsTo(staged, i) ==> SameAt(tree, base, p)
  }

  /** After the renames from i on are given up, nothing but the targets before
      i differs from base. */
  ghost predicate GivenUp(base: Tree, tree: Tree, staged: seq<Staged>, i: nat)
    requires i <= |staged|
  {
    && Spares(base, tree, staged, i)
    && (DistinctTargets(staged) ==> forall j :: 0 <= j < i ==> Landed(base, tree, staged[j]))
  }

  lemma GiveUp(base: Tree, tree: Tree, staged: seq<Staged>, i: nat)
    requires i <= |staged| && Applying(base, tree, staged, i)
    ensures GivenUp(base, tree - TempsFrom(staged, i), staged, i)
  {
    var after := tree - TempsFrom(staged, i);
    forall p | p !in TargetsTo(staged, i) ensures SameAt(after, base, p) {
      if p !in TempsFrom(staged, i) { assert SameAt(tree, base, p); }
    }
    if DistinctTargets(staged) {
      forall j | 0 <= j < i ensures Landed(base, after, staged[j]) { assert Landed(base, tree, staged[j]); }
    }
  }

  /** Without a clash, giving up after i renames leaves every other path as
      staging found it, directories apart, and no temporary. */
  lemma RenamesLeave(start: Tree, s: State, trees: seq<Tree>, i: nat)
    requires StagingAt(start, s) && Unclashed(s.staged) && Renames(s.tree, s.staged, trees) && i == |trees| - 1
    ensures GivenUp(Base(start, s.made), trees[i] - TempsFrom(s.staged, i), s.staged, i)
  {
    StagingApplying(start, s);
    LeaveFrom(Base(start, s.made), s.tree, s.staged, trees, i);
  }

  lemma LeaveFrom(base: Tree, mid: Tree, staged: seq<Staged>, trees: seq<Tree>, i: nat)
    requires Applying(base, mid, staged, 0) && Renames(mid, staged, trees) && i < |trees|
    ensures GivenUp(base, trees[i] - TempsFrom(staged, i), staged, i)
  {
    RenamesApplying(base, mid, staged, trees, i);
    GiveUp(base, trees[i], staged, i);
  }

  // ---- A path that vanishes ----

  /** The name of a temporary is empty from its rename on, unless a later file
      is renamed over it. */
  lemma {:induction false} Vanishes(mid: Tree, staged: seq<Staged>, trees: seq<Tree>, m: nat, i: nat)
    requires Renames(mid, staged, trees) && m < i < |trees|
    requires forall j :: m <= j < i ==> staged[j].target != staged[m].tmp
    ensures staged[m].tmp !in trees[i]
  {
    assert HandlesAt(staged, trees, i - 1);
    if m < i - 1 { Vanishes(mid, staged, trees, m, i - 1); }
  }

  // ---- What the renames leave, clash or not ----

  /** A path that is no temporary and no target so far is as it was. */
  lemma {:induction false} NotHandled(mid: Tree, staged: seq<Staged>, trees: seq<Tree>, p: Path, i: nat)
    requires Renames(mid, staged, trees) && i < |trees|
    requires p !in TargetsTo(staged, i) && p !in TempsFrom(staged, 0)
    ensures SameAt(trees[i], mid, p)
  {
    if i > 0 {
      Advance(staged, i - 1);
      NotHandled(mid, staged, trees, p, i - 1);
      assert HandlesAt(staged, trees, i - 1);
      assert staged[i - 1] in staged[0..];
    }
  }

  /** A temporary that is no target so far is gone, once those left are. */
  lemma TempGone(mid: Tree, staged: seq<Staged>, trees: seq<Tree>, p: Path, i: nat)
    requires Renames(mid, staged, trees) && i < |trees|
    requires p !in TargetsTo(staged, i) && p in TempsFrom(staged, 0)
    ensures p !in trees[i] - TempsFrom(staged, i)
  {
    var m :| 0 <= m < |staged| && staged[m].tmp == p;
    if m < i {
      forall j | m <= j < i ensures staged[j].target != staged[m].tmp { assert staged[j] in staged[..i]; }
      Vanishes(mid, staged, trees, m, i);
    } else {
      assert staged[m] in staged[i..];
    }
  }

  /** Giving up after i renames leaves every path but their targets as staging
      found it, directories apart, and no other temporary. */
  lemma RenamesSpare(start: Tree, s: State, trees: seq<Tree>, i: nat)
    requires StagingAt(start, s) && Renames(s.tree, s.staged, trees) && i == |trees| - 1
    ensures Spares(Base(start, s.made), trees[i] - TempsFrom(s.staged, i), s.staged, i)
  {
    var base, after := Base(start, s.made), trees[i] - TempsFrom(s.staged, i);
    forall p | p !in TargetsTo(s.staged, i) ensures SameAt(after, base, p) {
      if p in TempsFrom(s.staged, 0) {
        TempGone(s.tree, s.staged, trees, p, i);
      } else {
        NotHandled(s.tree, s.staged, trees, p, i);
        TempsFewer(s.staged, i);
      }
    }
  }

  lemma TempsFewer(staged: seq<Staged>, i: nat)
    requires i <= |staged|
    ensures TempsFrom(staged, i) <= TempsFrom(staged, 0)
  {
    forall x | x in staged[i..] ensures x in staged[0..] {}
  }

  /** The body of a staged file. */
  ghost predicate IsBody(staged: seq<Staged>, node: Node) {
    exists s :: s in staged && node == File(s.file.body)
  }

  /** What the renames leave is what was there or the body of a staged file. */
  lemma {:induction false} RenamesMove(start: Tree, s: State, trees: seq<Tree>, i: nat, p: Path)
    requires StagingAt(start, s) && Renames(s.tree, s.staged, trees) && i < |trees| && p in trees[i]
    ensures SameAt(trees[i], s.tree, p) || IsBody(s.staged, trees[i][p])
  {
    if i > 0 {
      var last := s.staged[i - 1];
      assert HandlesAt(s.staged, trees, i - 1);
      assert last in s.staged && Waits(start, s.tree, s.staged[i - 1]);
      RenamesMove(start, s, trees, i - 1, last.tmp);
      if p in trees[i - 1] { RenamesMove(start, s, trees, i - 1, p); }
    }
  }
}
