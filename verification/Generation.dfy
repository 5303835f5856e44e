/** Committing a list of files to disk. */
module Generation {
  import opened Disk
  import opened TempNames
  import opened Stages
  import opened Renaming
  import opened Commits

  ghost predicate DistinctPaths(files: seq<Output>) {
    forall i, j :: 0 <= i < j < |files| ==> files[i].path != files[j].path
  }

  ghost function PathsOf(files: seq<Output>): set<Path> { set f | f in files :: f.path }

  predicate Below(p: Path, q: Path) { p <= Parent(q) && q != [] }

  /** p is a directory on the way to a file. */
  ghost predicate OnTheWay(files: seq<Output>, p: Path) {
    exists g {:trigger Below(p, g.path)} :: g in files && Below(p, g.path)
  }

  /** p is a directory that was missing, made for a file below it. */
  ghost predicate NewDir(before: Tree, after: Tree, files: seq<Output>, p: Path) {
    p !in before && p in after && after[p] == Dir && OnTheWay(files, p)
  }

  /** Only the paths of the first k files changed, besides new directories. */
  ghost predicate Undisturbed(before: Tree, after: Tree, files: seq<Output>, k: nat)
    requires k <= |files|
  {
    forall p :: p !in PathsOf(files[..k]) ==> SameAt(after, before, p) || NewDir(before, after, files, p)
  }

  /** What a commit leaves at the path of f. */
  ghost predicate Committed(before: Tree, after: Tree, files: seq<Output>, f: Output) {
    if !f.once then f.path in after && after[f.path] == File(f.body)
    else if f.path in before then SameAt(after, before, f.path)
    else if !OnTheWay(files, f.path) then f.path in after && after[f.path] == File(f.body)
    else f.path in after && (after[f.path] == File(f.body) || after[f.path] == Dir)
  }

  // ---- Runs of the staging ----

  /** states[i] is the state once the first i files are staged. */
  ghost predicate IsRun(start: Tree, files: seq<Output>, states: seq<State>) {
    && WellFormed(start) && 0 < |states| <= |files| + 1 && states[0] == State(start, [], [])
    && forall i: nat {:trigger StepAt(files, states, i)} :: i < |states| - 1 ==> StepAt(files, states, i)
  }

  ghost predicate StepAt(files: seq<Output>, states: seq<State>, i: nat)
    requires i < |files| && i < |states| - 1
  {
    StepsTo(states[i], files[i], states[i + 1])
  }

  lemma RunOn(start: Tree, files: seq<Output>, states: seq<State>, next: State)
    requires IsRun(start, files, states) && |states| <= |files|
    requires StepsTo(states[|states| - 1], files[|states| - 1], next)
    ensures IsRun(start, files, states + [next])
  {
    var on := states + [next];
    forall i: nat | i < |on| - 1 ensures StepAt(files, on, i) {
      if i < |states| - 1 { assert StepAt(files, states, i); }
    }
  }

  /** The staged files are files of the list in its order, and a file not
      staged is gen-once with something at its path. */
  ghost predicate Follows(files: seq<Output>, n: nat, staged: seq<Staged>, from: seq<nat>, tree: Tree)
    requires n <= |files|
  {
    && |from| == |staged|
    && (forall i :: 0 <= i < |from| ==> from[i] < n && staged[i].file == files[from[i]])
    && Rising(from)
    && (forall k: nat {:trigger Accounted(files, from, tree, k)} :: k < n ==> Accounted(files, from, tree, k))
  }

  ghost predicate Rising(from: seq<nat>) {
    forall i: nat, j: nat {:trigger Before(from, i, j)} :: i < j < |from| ==> Before(from, i, j)
  }

  predicate Before(from: seq<nat>, i: nat, j: nat)
    requires i < j < |from|
  {
    from[i] < from[j]
  }

  /** File k was staged or skipped. */
  ghost predicate Accounted(files: seq<Output>, from: seq<nat>, tree: Tree, k: nat)
    requires k < |files|
  {
    k in from || (files[k].once && files[k].path in tree)
  }

  ghost predicate MadeFor(made: seq<Path>, files: seq<Output>) {
    forall p :: p in made ==> OnTheWay(files, p)
  }

  /** What a run has come to. */
  ghost predicate Reached(start: Tree, files: seq<Output>, n: nat, s: State, from: seq<nat>)
    requires n <= |files|
  {
    StagingAt(start, s) && Follows(files, n, s.staged, from, s.tree) && MadeFor(s.made, files)
  }

  lemma ReachNext(start: Tree, files: seq<Output>, n: nat, a: State, from: seq<nat>, b: State)
    returns (more: seq<nat>)
    requires n < |files| && Reached(start, files, n, a, from) && StepsTo(a, files[n], b)
    ensures Reached(start, files, n + 1, b, more)
    ensures more == if files[n].once && files[n].path in a.tree then from else from + [n]
  {
    var f := files[n];
    StepStaging(start, a, f, b);
    if f.once && f.path in a.tree {
      more := from;
      forall k: nat | k < n + 1 ensures Accounted(files, more, b.tree, k) {
        if k < n { assert Accounted(files, from, a.tree, k); }
      }
    } else {
      var room, u, tmp :| StagedAs(a, f, b, room, u, tmp);
      more := from + [n];
      FollowOn(files, n, a, b, from, tmp);
      MadeOn(a.made, room, files, f);
    }
  }

  lemma MadeOn(made: seq<Path>, more: seq<Path>, files: seq<Output>, f: Output)
    requires MadeFor(made, files) && f in files && f.path != [] && forall p :: p in more ==> p <= Parent(f.path)
    ensures MadeFor(made + more, files)
  {
    forall p | p in more ensures OnTheWay(files, p) { assert Below(p, f.path); }
  }

  lemma FollowOn(files: seq<Output>, n: nat, a: State, b: State, from: seq<nat>, tmp: Path)
    requires n < |files| && Follows(files, n, a.staged, from, a.tree) && a.tree.Keys <= b.tree.Keys
    requires b.staged == a.staged + [Staged(tmp, files[n].path, files[n])]
    ensures Follows(files, n + 1, b.staged, from + [n], b.tree)
  {
    var more := from + [n];
    assert more[|from|] in more;
    forall i: nat, j: nat | i < j < |more| ensures Before(more, i, j) {
      if j < |from| { assert Before(from, i, j); }
    }
    forall k: nat | k < n + 1 ensures Accounted(files, more, b.tree, k) {
      if k < n { assert Accounted(files, from, a.tree, k); }
    }
  }

  lemma ReachStart(start: Tree, files: seq<Output>)
    requires WellFormed(start)
    ensures Reached(start, files, 0, State(start, [], []), [])
  {
  }

  lemma {:induction false} RunReaches(start: Tree, files: seq<Output>, states: seq<State>, n: nat)
    returns (from: seq<nat>)
    requires IsRun(start, files, states) && n < |states|
    ensures Reached(start, files, n, states[n], from)
  {
    if n == 0 {
      from := [];
      ReachStart(start, files);
    } else {
      var before := RunReaches(start, files, states, n - 1);
      assert StepAt(files, states, n - 1);
      from := ReachNext(start, files, n - 1, states[n - 1], before, states[n]);
    }
  }

  /** A commit of files may lead from start to final. */
  ghost predicate Completes(start: Tree, files: seq<Output>, final: Tree) {
    exists states, trees :: CompletesBy(start, files, states, trees) && final == trees[|trees| - 1]
  }

  ghost predicate CompletesBy(start: Tree, files: seq<Output>, states: seq<State>, trees: seq<Tree>) {
    && IsRun(start, files, states) && |states| == |files| + 1
    && var s := states[|files|]; Renames(s.tree, s.staged, trees) && |trees| == |s.staged| + 1
  }

  // ---- Clashes ----

  /** The temporary of file i may take the path of file j, which then is lost:
      nothing is there at the start, file i is not skipped, and file j was
      staged before or, being gen-once, is skipped for it. */
  ghost predicate ClashAt(start: Tree, files: seq<Output>, i: nat, j: nat)
    requires i < |files| && j < |files|
  {
    && IsTempOf(files[j].path, files[i].path) && files[j].path !in start
    && !(files[i].once && files[i].path in start)
    && (j < i || files[j].once)
  }

  ghost predicate Clash(start: Tree, files: seq<Output>) {
    exists i: nat, j: nat :: i < |files| && j < |files| && ClashAt(start, files, i, j)
  }

  lemma NamedAs(start: Tree, files: seq<Output>, s: State, from: seq<nat>, i: nat)
    requires Reached(start, files, |files|, s, from) && i < |s.staged|
    ensures from[i] < |files| && s.staged[i].file == files[from[i]] && s.staged[i].target == files[from[i]].path
    ensures IsTempOf(s.staged[i].tmp, files[from[i]].path) && s.staged[i].tmp !in start
    ensures !(files[from[i]].once && files[from[i]].path in start)
  {
    assert Waits(start, s.tree, s.staged[i]);
    assert s.staged[i] in s.staged[0..];
    assert s.staged[i].tmp in TempsFrom(s.staged, 0);
  }

  lemma RunUnclashed(start: Tree, files: seq<Output>, s: State, from: seq<nat>)
    requires Reached(start, files, |files|, s, from) && !Clash(start, files)
    ensures Unclashed(s.staged)
  {
    forall i, j | 0 <= j < i < |s.staged| ensures s.staged[i].tmp != s.staged[j].target {
      NamedAs(start, files, s, from, i);
      NamedAs(start, files, s, from, j);
      assert Before(from, j, i);
      assert !ClashAt(start, files, from[i], from[j]);
    }
  }

  // ---- What a commit without a clash leaves ----

  lemma Undisturb(start: Tree, tree: Tree, made: seq<Path>, files: seq<Output>, staged: seq<Staged>, i: nat, k: nat)
    requires k <= |files| && i <= |staged| && Spares(Base(start, made), tree, staged, i)
    requires TargetsTo(staged, i) <= PathsOf(files[..k]) && MadeFor(made, files)
    requires [] in start && forall p :: p in made ==> p !in start
    ensures Undisturbed(start, tree, files, k)
  {
    forall p | p !in PathsOf(files[..k]) ensures SameAt(tree, start, p) || NewDir(start, tree, files, p) {
      assert SameAt(tree, Base(start, made), p);
    }
  }

  /** Different files of distinct paths are staged for different targets. */
  lemma TargetsDistinct(files: seq<Output>, staged: seq<Staged>, from: seq<nat>, tree: Tree)
    requires Follows(files, |files|, staged, from, tree) && DistinctPaths(files)
    requires forall j :: 0 <= j < |staged| ==> staged[j].target == staged[j].file.path
    ensures DistinctTargets(staged)
  {
    forall i, j | 0 <= i < j < |staged| ensures staged[i].target != staged[j].target { assert Before(from, i, j); }
  }

  lemma StagedCommitted(start: Tree, tree: Tree, made: seq<Path>, files: seq<Output>, s: Staged)
    requires Landed(Base(start, made), tree, s) && s.target == s.file.path
    requires s.file.once ==> s.target !in start
    requires MadeFor(made, files) && [] !in made
    ensures Committed(start, tree, files, s.file)
  {
  }

  lemma SkippedCommitted(start: Tree, tree: Tree, made: seq<Path>, files: seq<Output>, f: Output)
    requires f.once && f.path in Base(start, made) && SameAt(tree, Base(start, made), f.path)
    requires MadeFor(made, files) && [] !in made && forall p :: p in made ==> p !in start
    ensures Committed(start, tree, files, f)
  {
  }

  lemma NotTargeted(files: seq<Output>, staged: seq<Staged>, from: seq<nat>, tree: Tree, k: nat, i: nat)
    requires Follows(files, |files|, staged, from, tree) && DistinctPaths(files)
    requires k < |files| && k !in from && i <= |staged|
    requires forall j :: 0 <= j < |staged| ==> staged[j].target == staged[j].file.path
    ensures files[k].path !in TargetsTo(staged, i)
  {
    forall j | 0 <= j < |staged| ensures staged[j].target != files[k].path { assert from[j] in from; }
  }

  /** A file that was skipped found something of its own, not a temporary. */
  lemma SkippedFound(start: Tree, files: seq<Output>, s: State, from: seq<nat>, k: nat)
    requires Reached(start, files, |files|, s, from) && !Clash(start, files) && k < |files| && k !in from
    ensures files[k].once && files[k].path in Base(start, s.made)
  {
    assert Accounted(files, from, s.tree, k);
    forall i | 0 <= i < |s.staged| ensures s.staged[i].tmp != files[k].path {
      NamedAs(start, files, s, from, i);
      assert !ClashAt(start, files, from[i], k);
    }
  }

  /** Of the first i staged files the last is the file before k of the list. */
  ghost predicate Reaches(files: seq<Output>, staged: seq<Staged>, from: seq<nat>, i: nat, k: nat) {
    i <= |staged| == |from| && k <= |files| && k == if i < |from| then from[i] else |files|
  }

  /** The targets of the first i staged files are paths of the first k. */
  lemma HandledPaths(start: Tree, files: seq<Output>, s: State, from: seq<nat>, i: nat, k: nat)
    requires Reached(start, files, |files|, s, from) && Reaches(files, s.staged, from, i, k)
    ensures TargetsTo(s.staged, i) <= PathsOf(files[..k])
  {
    forall x | x in s.staged[..i] ensures x.target in PathsOf(files[..k]) {
      var j :| 0 <= j < i && s.staged[j] == x;
      NamedAs(start, files, s, from, j);
      if i < |from| { assert Before(from, j, i); }
      assert files[..k][from[j]] == x.file;
    }
  }

  /** Once i staged files have landed, the first k files are committed. */
  lemma CommittedBefore(start: Tree, tree: Tree, files: seq<Output>, s: State, from: seq<nat>, i: nat, k: nat, m: nat)
    requires Reached(start, files, |files|, s, from) && Reaches(files, s.staged, from, i, k)
    requires DistinctPaths(files) && !Clash(start, files) && m < k
    requires GivenUp(Base(start, s.made), tree, s.staged, i)
    ensures Committed(start, tree, files, files[m])
  {
    MadeIsNew(start, s);
    if m in from {
      var j :| 0 <= j < |from| && from[j] == m;
      if i <= j { StagedLater(from, i, j); }
      LandedCommitted(start, tree, files, s, from, i, j);
    } else {
      SkippedFound(start, files, s, from, m);
      TargetsNamed(start, files, s, from);
      NotTargeted(files, s.staged, from, s.tree, m, i);
      SkippedCommitted(start, tree, s.made, files, files[m]);
    }
  }

  lemma StagedLater(from: seq<nat>, i: nat, j: nat)
    requires Rising(from) && i < |from| && j < |from|
    ensures i <= j ==> from[i] <= from[j]
  {
    if i < j { assert Before(from, i, j); }
  }

  lemma MadeIsNew(start: Tree, s: State)
    requires StagingAt(start, s)
    ensures [] !in s.made && forall p :: p in s.made ==> p !in start
  {
  }

  lemma LandedCommitted(start: Tree, tree: Tree, files: seq<Output>, s: State, from: seq<nat>, i: nat, j: nat)
    requires Reached(start, files, |files|, s, from) && j < i <= |s.staged| && DistinctPaths(files)
    requires GivenUp(Base(start, s.made), tree, s.staged, i)
    ensures Committed(start, tree, files, files[from[j]])
  {
    MadeIsNew(start, s);
    TargetsNamed(start, files, s, from);
    TargetsDistinct(files, s.staged, from, s.tree);
    NamedAs(start, files, s, from, j);
    StagedCommitted(start, tree, s.made, files, s.staged[j]);
  }

  lemma TargetsNamed(start: Tree, files: seq<Output>, s: State, from: seq<nat>)
    requires Reached(start, files, |files|, s, from)
    ensures forall j :: 0 <= j < |s.staged| ==> s.staged[j].target == s.staged[j].file.path
  {
    forall j | 0 <= j < |s.staged| ensures s.staged[j].target == s.staged[j].file.path {
      NamedAs(start, files, s, from, j);
    }
  }

  lemma LeavesAlone(start: Tree, tree: Tree, files: seq<Output>, s: State, from: seq<nat>, i: nat, k: nat)
    requires Reached(start, files, |files|, s, from) && Reaches(files, s.staged, from, i, k)
    requires Spares(Base(start, s.made), tree, s.staged, i)
    ensures Undisturbed(start, tree, files, k)
  {
    MadeIsNew(start, s);
    HandledPaths(start, files, s, from, i, k);
    Undisturb(start, tree, s.made, files, s.staged, i, k);
  }

  /** What i renames leave, when the rest are given up. */
  lemma Leaves(start: Tree, tree: Tree, files: seq<Output>, s: State, from: seq<nat>, i: nat, k: nat)
    requires Reached(start, files, |files|, s, from) && Reaches(files, s.staged, from, i, k)
    requires !Clash(start, files) && GivenUp(Base(start, s.made), tree, s.staged, i)
    ensures Undisturbed(start, tree, files, k)
    ensures DistinctPaths(files) ==> forall m :: 0 <= m < k ==> Committed(start, tree, files, files[m])
  {
    LeavesAlone(start, tree, files, s, from, i, k);
    if DistinctPaths(files) {
      forall m | 0 <= m < k ensures Committed(start, tree, files, files[m]) {
        CommittedBefore(start, tree, files, s, from, i, k, m);
      }
    }
  }

  ghost predicate AllCommitted(before: Tree, after: Tree, files: seq<Output>) {
    && Undisturbed(before, after, files, |files|)
    && (DistinctPaths(files) ==> forall f :: f in files ==> Committed(before, after, files, f))
  }

  lemma AllLanded(start: Tree, files: seq<Output>, s: State, from: seq<nat>, trees: seq<Tree>)
    requires Reached(start, files, |files|, s, from) && !Clash(start, files)
    requires Renames(s.tree, s.staged, trees) && |trees| == |s.staged| + 1
    ensures AllCommitted(start, trees[|s.staged|], files)
  {
    var n := |s.staged|;
    RunUnclashed(start, files, s, from);
    RenamesLeave(start, s, trees, n);
    NoneWaits(trees[n], s.staged);
    LeavesAll(start, trees[n], files, s, from);
  }

  lemma LeavesAll(start: Tree, tree: Tree, files: seq<Output>, s: State, from: seq<nat>)
    requires Reached(start, files, |files|, s, from) && !Clash(start, files)
    requires GivenUp(Base(start, s.made), tree, s.staged, |s.staged|)
    ensures AllCommitted(start, tree, files)
  {
    Leaves(start, tree, files, s, from, |s.staged|, |files|);
  }

  /** A commit without a clash that completes leaves every file committed and
      every other path alone. */
  lemma CompletedCommitted(start: Tree, files: seq<Output>, final: Tree)
    requires Completes(start, files, final) && !Clash(start, files)
    ensures AllCommitted(start, final, files)
  {
    var states, trees :| CompletesBy(start, files, states, trees) && final == trees[|trees| - 1];
    var from := RunReaches(start, files, states, |files|);
    AllLanded(start, files, states[|files|], from, trees);
  }

  // ---- A commit that stops at a rename ----

  /** The files of the first k that are not gen-once. */
  ghost function PlainBefore(files: seq<Output>, k: nat): set<nat>
    requires k <= |files|
  {
    set i: nat | i < k && !files[i].once
  }

  lemma {:induction false} Increasing(from: seq<nat>, i: nat)
    requires i < |from| && Rising(from)
    ensures from[i] >= i
  {
    if i > 0 {
      Increasing(from, i - 1);
      assert Before(from, i - 1, i);
    }
  }

  lemma {:induction false} FewMembers(some: set<nat>, from: seq<nat>)
    requires forall x :: x in some ==> x in from
    ensures |some| <= |from|
  {
    if from != [] { FewMembers(some - {from[0]}, from[1..]); }
  }

  /** At least the plain files before file k were staged before it, and at most
      all files before it. */
  lemma StagedBefore(files: seq<Output>, staged: seq<Staged>, from: seq<nat>, tree: Tree, i: nat)
    requires Follows(files, |files|, staged, from, tree) && i < |from|
    ensures |PlainBefore(files, from[i])| <= i <= from[i]
  {
    Increasing(from, i);
    forall x | x in PlainBefore(files, from[i]) ensures x in from[..i] {
      assert Accounted(files, from, tree, x);
      var j :| 0 <= j < |from| && from[j] == x;
      StagedLater(from, i, j);
      assert from[..i][j] == x;
    }
    FewMembers(PlainBefore(files, from[i]), from[..i]);
  }

  datatype Result =
    | Unstaged                          // a file could not be staged
    | Partial(written: nat, path: Path) // the rename to path failed after so many files were written
    | Complete

  /** What differs is a directory or has the body of some file. */
  ghost predicate Traced(before: Tree, after: Tree, files: seq<Output>) {
    forall p :: p in after ==> SameAt(after, before, p) || after[p] == Dir || OfSome(files, after[p])
  }

  ghost predicate OfSome(files: seq<Output>, node: Node) { exists f :: f in files && node == File(f.body) }

  /** The commit stopped at the k-th file: nothing but the paths of those before
      it changed, besides new directories, so no other temporary is left, and
      without a clash they are committed. */
  ghost predicate StoppedAt(before: Tree, after: Tree, files: seq<Output>, r: Result, k: nat) {
    && r.Partial? && k < |files| && files[k].path == r.path && |PlainBefore(files, k)| <= r.written <= k
    && Undisturbed(before, after, files, k) && Traced(before, after, files)
    && (DistinctPaths(files) && !Clash(before, files) ==>
          forall m :: 0 <= m < k ==> Committed(before, after, files, files[m]))
  }

  /** What i renames leave is traced, once the temporaries left are gone. */
  lemma LeavesTraced(start: Tree, files: seq<Output>, s: State, from: seq<nat>, trees: seq<Tree>, i: nat)
    requires Reached(start, files, |files|, s, from) && Renames(s.tree, s.staged, trees) && i == |trees| - 1
    ensures Traced(start, trees[i] - TempsFrom(s.staged, i), files)
  {
    var after := trees[i] - TempsFrom(s.staged, i);
    forall p | p in after ensures SameAt(after, start, p) || after[p] == Dir || OfSome(files, after[p]) {
      RenamesMove(start, s, trees, i, p);
      if IsBody(s.staged, after[p]) {
        BodyOfFile(files, s, from, after[p]);
      } else {
        StagedTraced(start, files, s, from, p);
      }
    }
  }

  lemma BodyOfFile(files: seq<Output>, s: State, from: seq<nat>, node: Node)
    requires Follows(files, |files|, s.staged, from, s.tree) && IsBody(s.staged, node)
    ensures OfSome(files, node)
  {
    var x :| x in s.staged && node == File(x.file.body);
    var j :| 0 <= j < |s.staged| && s.staged[j] == x;
    assert files[from[j]] in files;
  }

  lemma StagedTraced(start: Tree, files: seq<Output>, s: State, from: seq<nat>, p: Path)
    requires Reached(start, files, |files|, s, from) && p in s.tree
    ensures SameAt(s.tree, start, p) || s.tree[p] == Dir || OfSome(files, s.tree[p])
  {
    if p in TempsFrom(s.staged, 0) {
      var j :| 0 <= j < |s.staged| && s.staged[j].tmp == p;
      assert Waits(start, s.tree, s.staged[j]);
      assert files[from[j]] in files;
    }
  }

  lemma Stopped(start: Tree, files: seq<Output>, s: State, from: seq<nat>, trees: seq<Tree>, i: nat)
    requires Reached(start, files, |files|, s, from)
    requires Renames(s.tree, s.staged, trees) && i == |trees| - 1 && i < |s.staged|
    ensures from[i] < |files| && s.staged[i].file == files[from[i]]
    ensures StoppedAt(start, trees[i] - TempsFrom(s.staged, i), files, Partial(i, files[from[i]].path), from[i])
  {
    var after := trees[i] - TempsFrom(s.staged, i);
    StagedBefore(files, s.staged, from, s.tree, i);
    RenamesSpare(start, s, trees, i);
    LeavesAlone(start, after, files, s, from, i, from[i]);
    LeavesTraced(start, files, s, from, trees, i);
    if DistinctPaths(files) && !Clash(start, files) {
      RunUnclashed(start, files, s, from);
      RenamesLeave(start, s, trees, i);
      Leaves(start, after, files, s, from, i, from[i]);
    }
  }

  // ---- A commit that nothing stands in the way of ----

  /** Nothing in the tree or among the files keeps f from its path. */
  ghost predicate Fits(t: Tree, files: seq<Output>, f: Output) {
    && f.path != [] && (f.path in t ==> f.once || t[f.path].File?) && Passable(t, Parent(f.path))
    && !OnTheWay(files, f.path)
  }

  ghost predicate Stageable(t: Tree, files: seq<Output>) {
    DistinctPaths(files) && forall f :: f in files ==> Fits(t, files, f)
  }

  /** Besides, no name of a temporary is in use or on the way to a file. */
  ghost predicate Feasible(t: Tree, files: seq<Output>) {
    && Stageable(t, files) && (forall f :: f in files ==> NoTempOf(t, f.path))
    && (forall f, p :: f in files && IsTempOf(p, f.path) ==> !OnTheWay(files, p))
  }

  lemma NotMade(t: Tree, files: seq<Output>, made: seq<Path>, f: Output)
    requires Stageable(t, files) && MadeFor(made, files) && f in files
    ensures f.path !in made
  {
    assert Fits(t, files, f);
  }

  /** No temporary stands on the way to a file. */
  ghost predicate WaysFree(files: seq<Output>, s: State) {
    forall p :: p in TempsFrom(s.staged, 0) ==> !OnTheWay(files, p)
  }

  lemma StillPassable(start: Tree, s: State, files: seq<Output>, f: Output)
    requires Stageable(start, files) && f in files && StagingAt(start, s) && WaysFree(files, s)
    ensures Passable(s.tree, Parent(f.path))
  {
    assert Fits(start, files, f);
    var up := Parent(f.path);
    forall i | 0 <= i <= |up| && up[..i] in s.tree ensures s.tree[up[..i]].Dir? {
      assert Below(up[..i], f.path);
      assert OnTheWay(files, up[..i]);
    }
  }

  /** What stands at the path of a file that is not skipped is a file. */
  lemma StillFits(start: Tree, s: State, files: seq<Output>, f: Output)
    requires Stageable(start, files) && f in files && StagingAt(start, s) && MadeFor(s.made, files)
    ensures f.path != [] && (f.path in s.tree ==> f.once || s.tree[f.path].File?)
  {
    assert Fits(start, files, f);
    NotMade(start, files, s.made, f);
  }

  /** No name of the temporary of a file not yet staged is in use. */
  lemma StillUnused(start: Tree, s: State, files: seq<Output>, f: Output)
    requires Feasible(start, files) && MadeFor(s.made, files) && f in files && StagingAt(start, s)
    requires forall j :: 0 <= j < |s.staged| ==> s.staged[j].target != f.path
    ensures NoTempOf(s.tree, f.path)
  {
    forall p | p in s.tree ensures !IsTempOf(p, f.path) {
      if IsTempOf(p, f.path) {
        if p in TempsFrom(s.staged, 0) { OthersTemp(start, s, p, f.path); }
      }
    }
  }

  lemma OthersTemp(start: Tree, s: State, p: Path, target: Path)
    requires StagingAt(start, s) && p in TempsFrom(s.staged, 0)
    requires forall j :: 0 <= j < |s.staged| ==> s.staged[j].target != target
    ensures !IsTempOf(p, target)
  {
    var j :| 0 <= j < |s.staged| && s.staged[j].tmp == p;
    assert Waits(start, s.tree, s.staged[j]);
    if IsTempOf(p, target) { TempInjective(p, s.staged[j].target, target); }
  }

  lemma NotYetStaged(start: Tree, files: seq<Output>, s: State, from: seq<nat>, n: nat)
    requires n < |files| && Reached(start, files, n, s, from) && DistinctPaths(files)
    ensures forall j :: 0 <= j < |s.staged| ==> s.staged[j].target != files[n].path
  {
    forall j | 0 <= j < |s.staged| ensures s.staged[j].target != files[n].path {
      assert Waits(start, s.tree, s.staged[j]);
    }
  }

  lemma FeasibleWays(start: Tree, files: seq<Output>, n: nat, s: State, from: seq<nat>)
    requires n <= |files| && Reached(start, files, n, s, from) && Feasible(start, files)
    ensures WaysFree(files, s)
  {
    forall p | p in TempsFrom(s.staged, 0) ensures !OnTheWay(files, p) {
      var j :| 0 <= j < |s.staged| && s.staged[j].tmp == p;
      assert Waits(start, s.tree, s.staged[j]);
      assert s.staged[j].file in files;
    }
  }

  lemma StillClear(start: Tree, files: seq<Output>, n: nat, s: State, from: seq<nat>)
    requires n < |files| && Reached(start, files, n, s, from) && Feasible(start, files)
    ensures Clear(s.tree, files[n])
  {
    var f := files[n];
    FeasibleWays(start, files, n, s, from);
    NotYetStaged(start, files, s, from, n);
    StillFits(start, s, files, f);
    StillPassable(start, s, files, f);
    StillUnused(start, s, files, f);
  }

  lemma StagedReady(start: Tree, files: seq<Output>, s: State, from: seq<nat>)
    requires Stageable(start, files) && Reached(start, files, |files|, s, from)
    ensures Ready(s.tree, s.staged)
  {
    forall j | 0 <= j < |s.staged| ensures ReadyFor(s.tree, s.staged[j].target) {
      NamedAs(start, files, s, from, j);
      var f := files[from[j]];
      StillFits(start, s, files, f);
      assert Waits(start, s.tree, s.staged[j]);
      TempBeside(s.staged[j].tmp, f.path);
      assert Seated(s.tree, s.staged[j].tmp);
      OnceFree(start, s, files, f);
    }
  }

  /** A gen-once file that was staged found nothing but, since, a file. */
  lemma OnceFree(start: Tree, s: State, files: seq<Output>, f: Output)
    requires Stageable(start, files) && f in files && StagingAt(start, s) && MadeFor(s.made, files)
    requires !(f.once && f.path in start)
    ensures f.path in s.tree ==> s.tree[f.path].File?
  {
    assert Fits(start, files, f);
    NotMade(start, files, s.made, f);
  }

  // ---- The commit ----

  method StageAll(c: Committer, files: seq<Output>) returns (ok: bool, ghost states: seq<State>)
    requires c.Valid() && c.Now() == State(c.start, [], [])
    modifies c, c.disk
    ensures c.Valid()
    ensures ok ==> IsRun(c.start, files, states) && |states| == |files| + 1 && states[|files|] == c.Now()
    ensures !c.disk.faulty && Feasible(c.start, files) ==> ok
  {
    states := [c.Now()];
    for n := 0 to |files|
      invariant c.Valid() && |states| == n + 1 && states[n] == c.Now() && IsRun(c.start, files, states)
    {
      if Feasible(c.start, files) {
        ghost var from := RunReaches(c.start, files, states, n);
        StillClear(c.start, files, n, c.Now(), from);
      }
      ok := c.Stage(files[n]);
      if !ok { return; }
      RunOn(c.start, files, states, c.Now());
      states := states + [c.Now()];
    }
    ok := true;
  }

  /** Stages every file and then renames them all; a failure to stage undoes
      everything. */
  method Commit(disk: Device, files: seq<Output>) returns (r: Result)
    requires disk.Valid()
    modifies disk
    ensures disk.Valid()
    ensures r.Unstaged? ==> disk.tree == old(disk.tree)
    ensures !r.Unstaged? ==> Ends(old(disk.tree), disk.tree, files, r)
    ensures !disk.faulty && Feasible(old(disk.tree), files) ==> r.Complete?
  {
    var c := new Committer(disk);
    var ok, states := StageAll(c, files);
    if !ok {
      c.Abort();
      return Unstaged;
    }
    r := Finish(c, files, states);
  }

  /** Renames the files of a completed staging. */
  method Finish(c: Committer, files: seq<Output>, ghost states: seq<State>) returns (r: Result)
    requires c.Valid() && IsRun(c.start, files, states) && |states| == |files| + 1 && states[|files|] == c.Now()
    modifies c.disk
    ensures c.disk.Valid() && Ends(c.start, c.disk.tree, files, r)
    ensures !c.disk.faulty && Feasible(c.start, files) ==> r.Complete?
  {
    if Feasible(c.start, files) { RunReady(c.start, files, states); }
    var applied, written, trees := c.Apply();
    r := if applied then Complete else Partial(written, c.staged[written].file.path);
    Concludes(c.start, files, states, trees, c.disk.tree, r);
  }

  lemma RunReady(start: Tree, files: seq<Output>, states: seq<State>)
    requires Stageable(start, files) && IsRun(start, files, states) && |states| == |files| + 1
    ensures Ready(states[|files|].tree, states[|files|].staged)
  {
    var from := RunReaches(start, files, states, |files|);
    StagedReady(start, files, states[|files|], from);
  }

  lemma Concludes(start: Tree, files: seq<Output>, states: seq<State>, trees: seq<Tree>, tree: Tree, r: Result)
    requires IsRun(start, files, states) && |states| == |files| + 1
    requires Renames(states[|files|].tree, states[|files|].staged, trees)
    requires var i, staged := |trees| - 1, states[|files|].staged;
      && tree == trees[i] - TempsFrom(staged, i)
      && r == if i == |staged| then Complete else Partial(i, staged[i].file.path)
    ensures Ends(start, tree, files, r)
  {
    var from := RunReaches(start, files, states, |files|);
    if r.Complete? {
      EndsComplete(start, files, states, from, trees, tree);
    } else {
      Stopped(start, files, states[|files|], from, trees, |trees| - 1);
    }
  }

  /** What a commit whose files were all staged comes to. */
  ghost predicate Ends(before: Tree, after: Tree, files: seq<Output>, r: Result) {
    match r
    case Unstaged => false
    case Partial(_, _) => exists k :: StoppedAt(before, after, files, r, k)
    case Complete =>
      && Completes(before, files, after) && Undisturbed(before, after, files, |files|) && Traced(before, after, files)
      && (!Clash(before, files) ==> AllCommitted(before, after, files))
  }

  lemma EndsComplete(start: Tree, files: seq<Output>, states: seq<State>, from: seq<nat>, trees: seq<Tree>, final: Tree)
    requires CompletesBy(start, files, states, trees) && Reached(start, files, |files|, states[|files|], from)
    requires final == trees[|trees| - 1] - TempsFrom(states[|files|].staged, |trees| - 1)
    ensures Ends(start, final, files, Complete)
  {
    var s, n := states[|files|], |trees| - 1;
    NoneWaits(trees[n], s.staged);
    RenamesSpare(start, s, trees, n);
    LeavesAlone(start, final, files, s, from, n, |files|);
    LeavesTraced(start, files, s, from, trees, n);
    if !Clash(start, files) { AllLanded(start, files, s, from, trees); }
  }
}
