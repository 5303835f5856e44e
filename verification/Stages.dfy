/** What staging does to the tree: directories and temporaries added to the
    tree a commit starts from, and taken away again. */
module Stages {
  import opened Disk
  import opened TempNames

  /** A file to write; a gen-once file yields to anything already at its
      path. */
  datatype Output = Output(path: Path, body: Body, once: bool)

  /** A file that waits under tmp to be moved to target. */
  datatype Staged = Staged(tmp: Path, target: Path, file: Output)

  ghost function TempsFrom(staged: seq<Staged>, i: nat): set<Path>
    requires i <= |staged|
  {
    set s | s in staged[i..] :: s.tmp
  }

  ghost function TargetsTo(staged: seq<Staged>, i: nat): set<Path>
    requires i <= |staged|
  {
    set s | s in staged[..i] :: s.target
  }

  /** Each directory is listed once, after the one it stands in. */
  predicate Ordered(made: seq<Path>) {
    forall i, j :: 0 <= i <= j < |made| ==> Parent(made[i]) != made[j] && (i < j ==> made[i] != made[j])
  }

  /** tree is start with the directories made and the temporaries added. */
  ghost predicate Extends(start: Tree, tree: Tree, made: seq<Path>, temps: set<Path>) {
    && WellFormed(start) && WellFormed(tree)
    && (forall p :: p in made ==> p !in start && p !in temps && p in tree && tree[p] == Dir)
    && (forall p :: p in temps ==> p !in start && p in tree && tree[p].File?)
    && (forall p :: p in start ==> p in tree && tree[p] == start[p])
    && (forall p :: p in tree ==> p in start || p in made || p in temps)
  }

  lemma ExtendsNothing(start: Tree, tree: Tree)
    requires Extends(start, tree, [], {})
    ensures tree == start
  {
  }

  lemma AddTemp(start: Tree, tree: Tree, made: seq<Path>, temps: set<Path>, p: Path, body: Body)
    requires Extends(start, tree, made, temps) && p !in tree && Seated(tree, p)
    ensures Extends(start, tree[p := File(body)], made, temps + {p})
  {
    AddWellFormed(tree, p, File(body));
  }

  lemma AddDir(start: Tree, tree: Tree, made: seq<Path>, p: Path)
    requires Extends(start, tree, made, {}) && Ordered(made) && p !in tree && Seated(tree, p)
    ensures Extends(start, tree[p := Dir], made + [p], {}) && Ordered(made + [p])
  {
    AddWellFormed(tree, p, Dir);
    OrderedOn(tree, made, [p]);
  }

  /** Directories made later come after those they stand in. */
  lemma OrderedOn(mid: Tree, made: seq<Path>, more: seq<Path>)
    requires WellFormed(mid) && Ordered(made) && Ordered(more)
    requires (forall p :: p in made ==> p in mid) && forall p :: p in more ==> p !in mid
    ensures Ordered(made + more)
  {
    var all := made + more;
    forall i, j | 0 <= i <= j < |all| ensures Parent(all[i]) != all[j] && (i < j ==> all[i] != all[j]) {
      if i < |made| {
        assert all[i] in made && Seated(mid, all[i]);
        if j >= |made| { assert all[j] in more; }
      } else {
        assert all[i] == more[i - |made|] && all[j] == more[j - |made|];
      }
    }
  }

  lemma AddMade(start: Tree, mid: Tree, tree: Tree, made: seq<Path>, more: seq<Path>, temps: set<Path>)
    requires Extends(start, mid, made, temps) && Extends(mid, tree, more, {})
    ensures Extends(start, tree, made + more, temps)
  {
  }

  lemma DropTemp(start: Tree, tree: Tree, made: seq<Path>, temps: set<Path>, p: Path)
    requires Extends(start, tree, made, temps) && p in temps
    ensures Removable(tree, p) && Extends(start, tree - {p}, made, temps - {p})
  {
    FileRemovable(tree, p);
    RemoveWellFormed(tree, p);
  }

  /** The directory made last is empty once the temporaries are gone. */
  lemma LastEmpty(start: Tree, tree: Tree, made: seq<Path>)
    requires Extends(start, tree, made, {}) && Ordered(made) && made != []
    ensures Removable(tree, made[|made| - 1])
  {
    var last := |made| - 1;
    var p := made[last];
    assert p in made;
    forall q | q in tree && q != [] ensures Parent(q) != p {
      if q in start {
        assert Seated(start, q);
      } else {
        var i :| 0 <= i < |made| && made[i] == q;
      }
    }
  }

  lemma DropDir(start: Tree, tree: Tree, made: seq<Path>)
    requires Extends(start, tree, made, {}) && Ordered(made) && made != []
    ensures var p := made[|made| - 1]; Removable(tree, p) && Extends(start, tree - {p}, made[..|made| - 1], {})
  {
    var last := |made| - 1;
    LastEmpty(start, tree, made);
    RemoveWellFormed(tree, made[last]);
    FrontApart(made);
  }

  lemma FrontApart(made: seq<Path>)
    requires Ordered(made) && made != []
    ensures var last := |made| - 1;
      made[last] !in made[..last] && forall q :: q in made <==> q == made[last] || q in made[..last]
  {
    var last := |made| - 1;
    assert made == made[..last] + [made[last]];
  }

  lemma DropLast(start: Tree, tree: Tree, made: seq<Path>, k: nat)
    requires k < |made| && Extends(start, tree, made[..k + 1], {}) && Ordered(made)
    ensures Removable(tree, made[k]) && Extends(start, tree - {made[k]}, made[..k], {})
  {
    assert made[..k + 1][..k] == made[..k];
    DropDir(start, tree, made[..k + 1]);
  }

  /** Every staged file waits under its own fresh temporary. */
  ghost predicate Staging(start: Tree, tree: Tree, made: seq<Path>, staged: seq<Staged>) {
    && Extends(start, tree, made, TempsFrom(staged, 0))
    && TempsDistinct(staged) && AllWait(start, tree, staged)
  }

  ghost predicate TempsDistinct(staged: seq<Staged>) {
    forall i: nat, j: nat {:trigger Differ(staged, i, j)} :: i < j < |staged| ==> Differ(staged, i, j)
  }

  predicate Differ(staged: seq<Staged>, i: nat, j: nat)
    requires i < j < |staged|
  {
    staged[i].tmp != staged[j].tmp
  }

  ghost predicate AllWait(start: Tree, tree: Tree, staged: seq<Staged>) {
    forall i {:trigger Waits(start, tree, staged[i])} :: 0 <= i < |staged| ==> Waits(start, tree, staged[i])
  }

  ghost predicate Waits(start: Tree, tree: Tree, s: Staged) {
    && s.tmp in tree && tree[s.tmp] == File(s.file.body)
    && IsTempOf(s.tmp, s.target) && s.target == s.file.path
    && (s.file.once ==> s.target !in start)
  }

  lemma AddStaged(start: Tree, tree: Tree, made: seq<Path>, staged: seq<Staged>, s: Staged)
    requires Staging(start, tree, made, staged) && s.tmp !in tree && Seated(tree, s.tmp)
    requires IsTempOf(s.tmp, s.target) && s.target == s.file.path && (s.file.once ==> s.target !in tree)
    ensures Staging(start, tree[s.tmp := File(s.file.body)], made, staged + [s])
  {
    AddTemp(start, tree, made, TempsFrom(staged, 0), s.tmp, s.file.body);
    TempsMore(staged, s);
    WaitOn(start, tree, staged, s);
  }

  lemma TempsMore(staged: seq<Staged>, s: Staged)
    ensures TempsFrom(staged + [s], 0) == TempsFrom(staged, 0) + {s.tmp}
  {
    assert staged[0..] == staged && (staged + [s])[0..] == staged + [s];
  }

  lemma WaitOn(start: Tree, tree: Tree, staged: seq<Staged>, s: Staged)
    requires AllWait(start, tree, staged) && TempsDistinct(staged)
    requires s.tmp !in tree && Waits(start, tree[s.tmp := File(s.file.body)], s)
    ensures AllWait(start, tree[s.tmp := File(s.file.body)], staged + [s]) && TempsDistinct(staged + [s])
  {
    var all := staged + [s];
    forall i | 0 <= i < |all| ensures Waits(start, tree[s.tmp := File(s.file.body)], all[i]) {
      if i < |staged| { assert Waits(start, tree, staged[i]); }
    }
    forall i: nat, j: nat | i < j < |all| ensures Differ(all, i, j) {
      assert Waits(start, tree, staged[i]);
      if j < |staged| { assert Differ(staged, i, j); }
    }
  }

  lemma GrowMade(start: Tree, mid: Tree, tree: Tree, made: seq<Path>, more: seq<Path>, staged: seq<Staged>)
    requires Staging(start, mid, made, staged) && Extends(mid, tree, more, {})
    ensures Staging(start, tree, made + more, staged)
  {
    AddMade(start, mid, tree, made, more, TempsFrom(staged, 0));
    forall i | 0 <= i < |staged| ensures Waits(start, tree, staged[i]) { assert Waits(start, mid, staged[i]); }
  }

  lemma Advance(staged: seq<Staged>, i: nat)
    requires i < |staged|
    ensures TempsFrom(staged, i) == TempsFrom(staged, i + 1) + {staged[i].tmp}
    ensures TargetsTo(staged, i + 1) == TargetsTo(staged, i) + {staged[i].target}
  {
    assert staged[i..] == [staged[i]] + staged[i + 1..];
    assert staged[..i + 1] == staged[..i] + [staged[i]];
  }

  lemma AbortStep(start: Tree, tree: Tree, made: seq<Path>, staged: seq<Staged>, i: nat)
    requires i < |staged| && Extends(start, tree, made, TempsFrom(staged, i))
    requires forall k :: i < k < |staged| ==> staged[k].tmp != staged[i].tmp
    ensures Removable(tree, staged[i].tmp) && Extends(start, tree - {staged[i].tmp}, made, TempsFrom(staged, i + 1))
  {
    Advance(staged, i);
    DropTemp(start, tree, made, TempsFrom(staged, i), staged[i].tmp);
    assert TempsFrom(staged, i) - {staged[i].tmp} == TempsFrom(staged, i + 1);
  }

  /** No name the temporary of target may take is in use. */
  ghost predicate NoTempOf(t: Tree, target: Path) {
    forall p :: p in t ==> !IsTempOf(p, target)
  }

  /** Nothing in the tree is in the way of f. */
  ghost predicate Clear(t: Tree, f: Output) {
    || (f.once && f.path in t)
    || (&& f.path != [] && (f.path in t ==> t[f.path].File?)
        && Passable(t, Parent(f.path)) && NoTempOf(t, f.path))
  }

  lemma ClearReadable(t: Tree, f: Output)
    requires Clear(t, f)
    ensures f.path in t || !BelowFile(t, f.path)
  {
    if f.path !in t {
      var up := Parent(f.path);
      assert forall i :: 0 <= i <= |up| ==> up[..i] == f.path[..i];
    }
  }

  /** Making directories above target uses no name of its temporary. */
  lemma StillNoTemp(before: Tree, after: Tree, made: seq<Path>, target: Path)
    requires target != [] && Extends(before, after, made, {}) && NoTempOf(before, target)
    requires forall p :: p in made ==> p <= Parent(target)
    ensures NoTempOf(after, target)
  {
    forall p | p in after ensures !IsTempOf(p, target) { TempBeside(p, target); }
  }

  // ---- One file staged ----

  /** The tree, the directories made and the files staged so far. */
  datatype State = State(tree: Tree, made: seq<Path>, staged: seq<Staged>)

  /** u is t with the missing directories above target, listed in more. */
  ghost predicate MakesRoom(t: Tree, more: seq<Path>, u: Tree, target: Path) {
    Extends(t, u, more, {}) && Ordered(more) && Seated(u, target) && forall p :: p in more ==> p <= Parent(target)
  }

  /** f is staged under the name tmp. */
  ghost predicate StagedAs(a: State, f: Output, b: State, more: seq<Path>, u: Tree, tmp: Path) {
    && f.path != [] && (f.path in a.tree ==> !f.once && a.tree[f.path].File?)
    && MakesRoom(a.tree, more, u, f.path) && tmp !in u && IsTempOf(tmp, f.path)
    && b == State(u[tmp := File(f.body)], a.made + more, a.staged + [Staged(tmp, f.path, f)])
  }

  /** Staging f leads from a to b: a gen-once file whose path is taken is
      skipped, any other gets a temporary under a name not in use. */
  ghost predicate StepsTo(a: State, f: Output, b: State) {
    if f.once && f.path in a.tree then b == a
    else exists more, u, tmp :: StagedAs(a, f, b, more, u, tmp)
  }

  ghost predicate StagingAt(start: Tree, s: State) { Staging(start, s.tree, s.made, s.staged) }

  lemma StepStaging(start: Tree, a: State, f: Output, b: State)
    requires StagingAt(start, a) && StepsTo(a, f, b)
    ensures StagingAt(start, b) && a.tree.Keys <= b.tree.Keys
  {
    if !(f.once && f.path in a.tree) {
      var more, u, tmp :| StagedAs(a, f, b, more, u, tmp);
      StagedStaging(start, a, f, b, more, u, tmp);
    }
  }

  lemma StagedStaging(start: Tree, a: State, f: Output, b: State, more: seq<Path>, u: Tree, tmp: Path)
    requires StagingAt(start, a) && StagedAs(a, f, b, more, u, tmp)
    ensures StagingAt(start, b) && a.tree.Keys <= b.tree.Keys
  {
    GrowMade(start, a.tree, u, a.made, more, a.staged);
    TempBeside(tmp, f.path);
    NotItself(a.tree, more, u, f.path);
    AddStaged(start, u, a.made + more, a.staged, Staged(tmp, f.path, f));
  }

  /** Making room for target does not make target. */
  lemma NotItself(t: Tree, more: seq<Path>, u: Tree, target: Path)
    requires MakesRoom(t, more, u, target) && target != []
    ensures target in u ==> target in t
  {
  }
}
