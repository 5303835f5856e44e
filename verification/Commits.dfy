/** The commit of staged files: temporaries and directories made, renamed
    into place, or undone. */
module Commits {
  import opened Disk
  import opened TempNames
  import opened Stages
  import opened Renaming

  /** The directories missing on the way to dir, innermost first. */
  method FindMissing(disk: Device, dir: Path) returns (missing: seq<Path>, ok: bool)
    requires disk.Valid()
    ensures |missing| <= |dir| && forall k :: 0 <= k < |missing| ==> missing[k] == dir[..|dir| - k]
    ensures forall k :: 0 <= k < |missing| ==> missing[k] !in disk.tree
    ensures ok ==> StandsAt(disk.tree, dir, |missing|)
    ensures !disk.faulty && Passable(disk.tree, dir) ==> ok
  {
    missing := [];
    var d := dir;
    while true
      invariant |missing| + |d| == |dir| && d == dir[..|d|]
      invariant forall k :: 0 <= k < |missing| ==> missing[k] == dir[..|dir| - k]
      invariant forall k :: 0 <= k < |missing| ==> missing[k] !in disk.tree
      decreases |d|
    {
      assert forall i :: 0 <= i < |d| ==> d[..i] == dir[..i];
      var r := disk.Lstat(d);
      if r.Found? { return missing, r.node.Dir?; }
      if r.Unreadable? { return missing, false; }
      missing := missing + [d];
      if Parent(d) == d { break; }
      d := Parent(d);
    }
    ok := false;
  }

  /** The ancestor of dir that lies i above it is a directory. */
  predicate StandsAt(t: Tree, dir: Path, i: nat) {
    i <= |dir| && dir[..|dir| - i] in t && t[dir[..|dir| - i]] == Dir
  }

  /** Makes the directories missing on the way to dir, outermost first; made
      lists them in that order. */
  method MkdirAll(disk: Device, dir: Path) returns (made: seq<Path>, ok: bool)
    requires disk.Valid()
    modifies disk
    ensures disk.Valid() && Extends(old(disk.tree), disk.tree, made, {}) && Ordered(made)
    ensures ok ==> dir in disk.tree && disk.tree[dir] == Dir
    ensures forall p :: p in made ==> p <= dir
    ensures !disk.faulty && Passable(old(disk.tree), dir) ==> ok
  {
    made := [];
    var missing, readable := FindMissing(disk, dir);
    if !readable { return made, false; }
    var i := |missing|;
    while i > 0
      invariant 0 <= i <= |missing|
      invariant disk.Valid() && Extends(old(disk.tree), disk.tree, made, {}) && Ordered(made)
      invariant forall p :: p in made ==> p <= dir
      invariant StandsAt(disk.tree, dir, i)
    {
      i := i - 1;
      ghost var before := disk.tree;
      assert Parent(missing[i]) == dir[..|dir| - (i + 1)];
      var r := disk.Mkdir(missing[i]);
      if r.Failed? { return made, false; }
      if r.Done? {
        AddDir(old(disk.tree), before, made, missing[i]);
        made := made + [missing[i]];
      }
    }
    assert dir[..|dir|] == dir;
    ok := true;
  }

  /** Creates a temporary of target and fills it with body. */
  method WriteTemp(disk: Device, target: Path, body: Body) returns (tmp: Path, ok: bool)
    requires disk.Valid() && target != []
    modifies disk
    ensures disk.Valid()
    ensures ok ==> IsTempOf(tmp, target) && tmp !in old(disk.tree) && Seated(old(disk.tree), tmp)
    ensures ok ==> disk.tree == old(disk.tree)[tmp := File(body)]
    ensures !ok ==> disk.tree == old(disk.tree)
    ensures !disk.faulty && Seated(old(disk.tree), target) && NoTempOf(old(disk.tree), target) ==> ok
  {
    for attempt := 0 to 101
      invariant disk.tree == old(disk.tree) && disk.Valid()
      invariant attempt > 0 ==> !NoTempOf(disk.tree, target)
    {
      var random: uint32 := *;
      tmp := TempName(target, Base36(random));
      IsTemp(target, random);
      TempBeside(tmp, target);
      var r := disk.Create(tmp);
      if r.AlreadyThere? && attempt < 100 { continue; }
      if !r.Done? { return tmp, false; }
      ok := disk.Write(tmp, body);
      if ok { return tmp, true; }
      FileRemovable(disk.tree, tmp);
      disk.Remove(tmp);
      return tmp, false;
    }
    return tmp, false;
  }

  /** What to do with a file once its path has been looked at. */
  datatype Verdict = Skip | Refuse | Go

  class Committer {
    const disk: Device
    var staged: seq<Staged>
    /** The directories staging has made, a parent before what is in it. */
    var made: seq<Path>
    ghost const start: Tree

    ghost function Now(): State reads this, disk { State(disk.tree, made, staged) }

    ghost predicate Valid() reads this, disk {
      disk.Valid() && StagingAt(start, Now()) && Ordered(made)
    }

    constructor (disk: Device)
      requires disk.Valid()
      ensures Valid() && this.disk == disk && start == disk.tree && Now() == State(disk.tree, [], [])
    {
      this.disk := disk;
      staged, made := [], [];
      start := disk.tree;
    }

    /** Writes the temporary of f, unless f is gen-once and something is at
        its path. */
    method Stage(f: Output) returns (ok: bool)
      requires Valid()
      modifies this, disk
      ensures Valid()
      ensures if ok then StepsTo(old(Now()), f, Now()) else staged == old(staged)
      ensures !disk.faulty && Clear(old(disk.tree), f) ==> ok
    {
      var verdict := Examine(f);
      if verdict.Skip? { return true; }
      if verdict.Refuse? { return false; }
      var more: seq<Path>;
      more, ok := MakeRoom(f.path);
      if ok { ok := StageTemp(f, old(Now()), more); }
    }

    /** Looks at what is at the path of f. */
    method Examine(f: Output) returns (v: Verdict)
      requires disk.Valid()
      ensures v.Skip? ==> f.once && f.path in disk.tree
      ensures v.Go? ==> f.path != [] && (f.path in disk.tree ==> !f.once && disk.tree[f.path].File?)
      ensures !disk.faulty && Clear(disk.tree, f) ==> !v.Refuse?
    {
      var status := disk.Lstat(f.path);
      if Clear(disk.tree, f) { ClearReadable(disk.tree, f); }
      if status.Found? && f.once { return Skip; }
      if status.Unreadable? { return Refuse; }
      if status.Found? {
        var refused := disk.Fault();
        if status.node.Dir? || refused { return Refuse; }
      }
      return Go;
    }

    /** Makes the directory of target, recording what it made. */
    method MakeRoom(target: Path) returns (more: seq<Path>, ok: bool)
      requires Valid() && target != []
      modifies this`made, disk
      ensures Valid() && made == old(made) + more
      ensures ok ==> MakesRoom(old(disk.tree), more, disk.tree, target)
      ensures !disk.faulty && Passable(old(disk.tree), Parent(target)) ==> ok
      ensures NoTempOf(old(disk.tree), target) ==> NoTempOf(disk.tree, target)
    {
      ghost var before := disk.tree;
      more, ok := MkdirAll(disk, Parent(target));
      GrowMade(start, before, disk.tree, made, more, staged);
      OrderedOn(before, made, more);
      if NoTempOf(before, target) { StillNoTemp(before, disk.tree, more, target); }
      made := made + more;
    }

    /** Writes the temporary of f, once there is room for it. */
    method StageTemp(f: Output, ghost before: State, ghost more: seq<Path>) returns (ok: bool)
      requires Valid() && f.path != [] && (f.path in before.tree ==> !f.once && before.tree[f.path].File?)
      requires StagingAt(start, before) && MakesRoom(before.tree, more, disk.tree, f.path)
      requires made == before.made + more && staged == before.staged
      modifies this`staged, disk
      ensures Valid() && (if ok then StepsTo(before, f, Now()) else staged == old(staged))
      ensures !disk.faulty && NoTempOf(old(disk.tree), f.path) ==> ok
    {
      ghost var room := disk.tree;
      var tmp, written := WriteTemp(disk, f.path, f.body);
      if !written { return false; }
      staged := staged + [Staged(tmp, f.path, f)];
      assert StagedAs(before, f, Now(), more, room, tmp);
      StepStaging(start, before, f, Now());
      return true;
    }

    /** Removes the temporaries, then the directories made for them. */
    method Abort()
      requires Valid()
      modifies disk
      ensures disk.Valid() && disk.tree == start
    {
      DropTemps();
      DropDirs();
      ExtendsNothing(start, disk.tree);
    }

    method DropTemps()
      requires Valid()
      modifies disk
      ensures disk.Valid() && Extends(start, disk.tree, made, {})
    {
      for i := 0 to |staged|
        invariant disk.Valid() && Extends(start, disk.tree, made, TempsFrom(staged, i))
      {
        forall k | i < k < |staged| ensures staged[k].tmp != staged[i].tmp { assert Differ(staged, i, k); }
        AbortStep(start, disk.tree, made, staged, i);
        disk.Remove(staged[i].tmp);
      }
    }

    method DropDirs()
      requires disk.Valid() && Extends(start, disk.tree, made, {}) && Ordered(made)
      modifies disk
      ensures disk.Valid() && Extends(start, disk.tree, [], {})
    {
      var k := |made|;
      assert made[..k] == made;
      while k > 0
        invariant 0 <= k <= |made|
        invariant disk.Valid() && Extends(start, disk.tree, made[..k], {})
      {
        k := k - 1;
        DropLast(start, disk.tree, made, k);
        disk.Remove(made[k]);
      }
    }

    /** Moves the temporaries into place in order; written is the number of
        files handled, and trees the tree before each of them and after the
        last. On a failure the temporaries left are removed. */
    method Apply() returns (ok: bool, written: nat, ghost trees: seq<Tree>)
      requires Valid()
      modifies disk
      ensures disk.Valid() && written <= |staged| && (ok <==> written == |staged|)
      ensures Renames(old(disk.tree), staged, trees) && |trees| == written + 1
      ensures disk.tree == trees[written] - TempsFrom(staged, written)
      ensures !disk.faulty && Ready(old(disk.tree), staged) ==> ok
    {
      StagingPending(start, Now());
      trees := [disk.tree];
      for i := 0 to |staged|
        invariant disk.Valid() && |trees| == i + 1 && trees[i] == disk.tree
        invariant Renames(old(disk.tree), staged, trees) && Pending(disk.tree, staged, i)
        invariant SameDirs(old(disk.tree), disk.tree)
      {
        var moved := ApplyOne(old(disk.tree), i);
        if !moved {
          DropRest(i);
          return false, i, trees;
        }
        RenamesOn(old(disk.tree), staged, trees, disk.tree);
        trees := trees + [disk.tree];
      }
      return true, |staged|, trees;
    }

    /** Renames one temporary, or removes that of a gen-once file whose path
        has been taken. */
    method ApplyOne(ghost mid: Tree, i: nat) returns (ok: bool)
      requires disk.Valid() && i < |staged| && Pending(disk.tree, staged, i) && SameDirs(mid, disk.tree)
      modifies disk
      ensures disk.Valid() && SameDirs(mid, disk.tree)
      ensures ok ==> Handles(old(disk.tree), staged[i], disk.tree) && Pending(disk.tree, staged, i + 1)
      ensures !ok ==> disk.tree == old(disk.tree)
      ensures !disk.faulty && Ready(mid, staged) ==> ok
    {
      var s := staged[i];
      ghost var before := disk.tree;
      var taken := false;
      if s.file.once {
        var status := disk.Lstat(s.target);
        taken := status.Found?;
      }
      if taken {
        FileRemovable(disk.tree, s.tmp);
        disk.Remove(s.tmp);
        ok := true;
      } else {
        if ReadyFor(mid, s.target) { StillReady(mid, disk.tree, s.target); }
        ok := disk.Rename(s.tmp, s.target);
      }
      if ok {
        HandlePending(before, staged, i, disk.tree);
        HandleDirs(before, s, disk.tree);
      }
    }

    /** Removes the temporaries of the files from i on. */
    method DropRest(i: nat)
      requires disk.Valid() && i <= |staged| && Pending(disk.tree, staged, i)
      modifies disk
      ensures disk.Valid() && disk.tree == old(disk.tree) - TempsFrom(staged, i)
    {
      for j := i to |staged|
        invariant disk.Valid() && Pending(disk.tree, staged, j)
        invariant disk.tree - TempsFrom(staged, j) == old(disk.tree) - TempsFrom(staged, i)
      {
        DropOne(disk.tree, staged, j);
        disk.Remove(staged[j].tmp);
      }
      NoneWaits(disk.tree, staged);
    }
  }
}
