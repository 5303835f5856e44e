/** A pass: its writes collected in memory and committed together. */
module Passes {
  import opened Ast
  import opened Disk
  import opened TempNames
  import opened Stages
  import opened Generation

  /** What rendering asks for. */
  datatype Request = Write(path: Path, body: Body) | WriteOnce(path: Path, body: Body)

  /** The body of the last plain write to p. */
  function LastWrite(reqs: seq<Request>, p: Path): Option<Body> {
    if reqs == [] then None
    else
      var r := reqs[|reqs| - 1];
      if r.Write? && r.path == p then Some(r.body) else LastWrite(reqs[..|reqs| - 1], p)
  }

  /** The body of the first gen-once write to p. */
  function FirstOnce(reqs: seq<Request>, p: Path): Option<Body> {
    if reqs == [] then None
    else
      var earlier := FirstOnce(reqs[..|reqs| - 1], p);
      var r := reqs[|reqs| - 1];
      if earlier.None? && r.WriteOnce? && r.path == p then Some(r.body) else earlier
  }

  class FileSet {
    var files: seq<Output>
    var at: map<Path, nat>

    /** at finds each file by its path. */
    ghost predicate Valid() reads this {
      && (forall p :: p in at ==> at[p] < |files| && files[at[p]].path == p)
      && (forall i :: 0 <= i < |files| ==> files[i].path in at && at[files[i].path] == i)
    }

    constructor ()
      ensures Valid() && files == []
    { files, at := [], map[]; }

    /** Takes f in: over the file of its path if f is regenerated, and only
        where the set has none if f is gen-once. */
    method Add(f: Output)
      requires Valid()
      modifies this
      ensures Valid()
      ensures forall p :: p in at <==> p in old(at) || p == f.path
      ensures f.path in old(at) ==> files == if f.once then old(files) else old(files)[old(at)[f.path] := f]
      ensures f.path !in old(at) ==> files == old(files) + [f]
    {
      if f.path in at {
        if !f.once { files := files[at[f.path] := f]; }
        return;
      }
      at := at[f.path := |files|];
      files := files + [f];
    }

    method Has(p: Path) returns (b: bool)
      requires Valid()
      ensures b <==> p in at
      ensures b <==> exists i :: 0 <= i < |files| && files[i].path == p
    {
      b := p in at;
    }
  }

  /** The file the requests leave for p. */
  ghost predicate Right(tree: Tree, reqs: seq<Request>, f: Output) {
    if f.once then
      && LastWrite(reqs, f.path).None? && FirstOnce(reqs, f.path).Some?
      && (f.path !in tree ==> FirstOnce(reqs, f.path) == Some(f.body))
    else LastWrite(reqs, f.path) == Some(f.body)
  }

  /** p must be in the set. */
  ghost predicate Needed(tree: Tree, reqs: seq<Request>, p: Path) {
    LastWrite(reqs, p).Some? || (FirstOnce(reqs, p).Some? && p !in tree)
  }

  ghost predicate Collected(tree: Tree, reqs: seq<Request>, files: seq<Output>) {
    && DistinctPaths(files)
    && (forall i :: 0 <= i < |files| ==> Right(tree, reqs, files[i]))
    && (forall p :: Needed(tree, reqs, p) ==> p in PathsOf(files))
  }

  /** Collects the requests in memory; a gen-once request yields to what the
      tree or the set already has at its path. */
  method Collect(disk: Device, reqs: seq<Request>) returns (files: seq<Output>)
    ensures Collected(disk.tree, reqs, files)
  {
    var s := new FileSet();
    for n := 0 to |reqs|
      invariant s.Valid() && fresh(s) && disk.tree == old(disk.tree)
      invariant Collected(disk.tree, reqs[..n], s.files)
    {
      var r := reqs[n];
      assert reqs[..n + 1][..n] == reqs[..n];
      ghost var before := s.files;
      var once := r.WriteOnce?;
      if once {
        var held := s.Has(r.path);
        var status := disk.Lstat(r.path);
        if held || status.Found? {
          DropOnce(disk.tree, reqs[..n + 1], s.files);
          continue;
        }
      }
      ghost var index := s.at;
      s.Add(Output(r.path, r.body, once));
      if r.path in index {
        Replaced(disk.tree, reqs[..n + 1], before, s.files, index[r.path]);
      } else {
        Extended(disk.tree, reqs[..n + 1], before, s.files);
      }
    }
    assert reqs[..|reqs|] == reqs;
    files := s.files;
  }

  /** A gen-once request whose path is taken changes nothing. */
  lemma DropOnce(tree: Tree, reqs: seq<Request>, files: seq<Output>)
    requires reqs != [] && Collected(tree, reqs[..|reqs| - 1], files)
    requires var r := reqs[|reqs| - 1]; r.WriteOnce? && (r.path in PathsOf(files) || r.path in tree)
    ensures Collected(tree, reqs, files)
  {
    var prior := reqs[..|reqs| - 1];
    forall i | 0 <= i < |files| ensures Right(tree, reqs, files[i]) { assert Right(tree, prior, files[i]); }
    forall p | Needed(tree, reqs, p) ensures p in PathsOf(files) {
      if p != reqs[|reqs| - 1].path { assert Needed(tree, prior, p); }
    }
  }

  /** A plain write replaces the file of its path. */
  lemma Replaced(tree: Tree, reqs: seq<Request>, before: seq<Output>, after: seq<Output>, k: nat)
    requires reqs != [] && Collected(tree, reqs[..|reqs| - 1], before)
    requires var r := reqs[|reqs| - 1];
      && r.Write? && k < |before| && before[k].path == r.path
      && after == before[k := Output(r.path, r.body, false)]
    ensures Collected(tree, reqs, after)
  {
    var prior := reqs[..|reqs| - 1];
    forall i | 0 <= i < |after| ensures Right(tree, reqs, after[i]) {
      if i != k { assert Right(tree, prior, before[i]); }
    }
    assert PathsOf(after) == PathsOf(before) by {
      forall p | p in PathsOf(before) ensures p in PathsOf(after) {
        var i :| 0 <= i < |before| && before[i].path == p;
        assert after[i] in after;
      }
      forall p | p in PathsOf(after) ensures p in PathsOf(before) {
        var i :| 0 <= i < |after| && after[i].path == p;
        assert before[i] in before;
      }
    }
    forall p | Needed(tree, reqs, p) ensures p in PathsOf(after) {
      if p != reqs[|reqs| - 1].path { assert Needed(tree, prior, p); } else { assert after[k] in after; }
    }
  }

  /** A request for a path the set lacks adds its file. */
  lemma Extended(tree: Tree, reqs: seq<Request>, before: seq<Output>, after: seq<Output>)
    requires reqs != [] && Collected(tree, reqs[..|reqs| - 1], before)
    requires var r := reqs[|reqs| - 1];
      r.path !in PathsOf(before) && after == before + [Output(r.path, r.body, r.WriteOnce?)]
    ensures Collected(tree, reqs, after)
  {
    var prior := reqs[..|reqs| - 1];
    var r := reqs[|reqs| - 1];
    assert !Needed(tree, prior, r.path);
    forall i | 0 <= i < |after| ensures Right(tree, reqs, after[i]) {
      if i < |before| {
        assert before[i] in before;
        assert Right(tree, prior, before[i]);
      }
    }
    forall i | 0 <= i < |before| ensures after[i].path != r.path { assert before[i] in before; }
    assert PathsOf(after) == PathsOf(before) + {r.path};
    forall p | Needed(tree, reqs, p) ensures p in PathsOf(after) {
      if p != r.path { assert Needed(tree, prior, p); }
    }
  }

  ghost predicate Requested(reqs: seq<Request>, p: Path) {
    LastWrite(reqs, p).Some? || FirstOnce(reqs, p).Some?
  }

  ghost predicate RequestedBelow(reqs: seq<Request>, p: Path) {
    exists q :: Requested(reqs, q) && Below(p, q)
  }

  /** p is as it was, or a new directory above a requested path. */
  ghost predicate Spared(before: Tree, after: Tree, reqs: seq<Request>, p: Path) {
    SameAt(after, before, p) || (p !in before && p in after && after[p] == Dir && RequestedBelow(reqs, p))
  }

  /** What a completed pass leaves at p: the last regenerated body, else the
      first gen-once body where nothing was, else what was there; a directory
      may appear above a requested path. */
  ghost predicate Outcome(before: Tree, after: Tree, reqs: seq<Request>, p: Path) {
    if LastWrite(reqs, p).Some? then p in after && after[p] == File(LastWrite(reqs, p).value)
    else if p in before then SameAt(after, before, p)
    else if RequestedBelow(reqs, p) then p in after ==> after[p] == Dir || FirstOnce(reqs, p) == Some(after[p].body)
    else if FirstOnce(reqs, p).Some? then p in after && after[p] == File(FirstOnce(reqs, p).value)
    else p !in after
  }

  lemma FileRequested(before: Tree, reqs: seq<Request>, files: seq<Output>, f: Output)
    requires Collected(before, reqs, files) && f in files
    ensures Requested(reqs, f.path) && Right(before, reqs, f)
  {
    var i :| 0 <= i < |files| && files[i] == f;
    assert Right(before, reqs, files[i]);
  }

  lemma WayRequested(before: Tree, reqs: seq<Request>, files: seq<Output>, p: Path)
    requires Collected(before, reqs, files) && OnTheWay(files, p)
    ensures RequestedBelow(reqs, p)
  {
    var g :| g in files && Below(p, g.path);
    FileRequested(before, reqs, files, g);
  }

  /** A committed file is the outcome of its path. */
  lemma OutcomeOf(before: Tree, after: Tree, reqs: seq<Request>, files: seq<Output>, f: Output)
    requires Collected(before, reqs, files) && f in files && Committed(before, after, files, f)
    ensures Outcome(before, after, reqs, f.path)
  {
    FileRequested(before, reqs, files, f);
    if OnTheWay(files, f.path) { WayRequested(before, reqs, files, f.path); }
  }

  /** A path that no handled file has is spared. */
  lemma SparedAt(before: Tree, after: Tree, reqs: seq<Request>, files: seq<Output>, k: nat, p: Path)
    requires Collected(before, reqs, files) && k <= |files| && Undisturbed(before, after, files, k)
    requires p !in PathsOf(files[..k])
    ensures Spared(before, after, reqs, p)
  {
    if NewDir(before, after, files, p) { WayRequested(before, reqs, files, p); }
  }

  lemma OutcomeAt(before: Tree, after: Tree, reqs: seq<Request>, files: seq<Output>, p: Path)
    requires Collected(before, reqs, files) && AllCommitted(before, after, files)
    ensures Outcome(before, after, reqs, p)
  {
    assert files[..|files|] == files;
    if f :| f in files && f.path == p {
      OutcomeOf(before, after, reqs, files, f);
    } else {
      assert !Needed(before, reqs, p);
      SparedAt(before, after, reqs, files, |files|, p);
    }
  }

  // ---- A pass that stops, and one that nothing stands in the way of ----

  /** Every path that none of the files has is spared. */
  ghost predicate OthersSpared(before: Tree, after: Tree, reqs: seq<Request>, files: seq<Output>) {
    forall p :: p !in PathsOf(files) ==> Spared(before, after, reqs, p)
  }

  /** The pass stopped at the k-th file: every path but those of the files
      before it is spared, and without a clash these hold their outcome. */
  ghost predicate StopsAt(before: Tree, after: Tree, reqs: seq<Request>, files: seq<Output>, r: Result, k: nat) {
    && r.Partial? && k < |files| && files[k].path == r.path && r.written <= k
    && OthersSpared(before, after, reqs, files[..k])
    && (!Clash(before, files) ==> forall i :: 0 <= i < k ==> Outcome(before, after, reqs, files[i].path))
  }

  /** What a pass comes to whose files, collected from the requests, were all
      staged. */
  ghost predicate PassEnds(before: Tree, after: Tree, reqs: seq<Request>, files: seq<Output>, r: Result) {
    match r
    case Unstaged => false
    case Partial(_, _) => exists k :: StopsAt(before, after, reqs, files, r, k)
    case Complete =>
      && OthersSpared(before, after, reqs, files)
      && (!Clash(before, files) ==> forall p :: Outcome(before, after, reqs, p))
  }

  lemma PassConcludes(before: Tree, after: Tree, reqs: seq<Request>, files: seq<Output>, r: Result)
    requires Collected(before, reqs, files) && Ends(before, after, files, r)
    ensures PassEnds(before, after, reqs, files, r)
  {
    if r.Complete? {
      assert files[..|files|] == files;
      SpareOthers(before, after, reqs, files, |files|);
      if !Clash(before, files) {
        forall p ensures Outcome(before, after, reqs, p) { OutcomeAt(before, after, reqs, files, p); }
      }
    } else {
      var k :| StoppedAt(before, after, files, r, k);
      PassStops(before, after, reqs, files, r, k);
    }
  }

  lemma SpareOthers(before: Tree, after: Tree, reqs: seq<Request>, files: seq<Output>, k: nat)
    requires Collected(before, reqs, files) && k <= |files| && Undisturbed(before, after, files, k)
    ensures OthersSpared(before, after, reqs, files[..k])
  {
    forall p | p !in PathsOf(files[..k]) ensures Spared(before, after, reqs, p) {
      SparedAt(before, after, reqs, files, k, p);
    }
  }

  lemma PassStops(before: Tree, after: Tree, reqs: seq<Request>, files: seq<Output>, r: Result, k: nat)
    requires Collected(before, reqs, files) && StoppedAt(before, after, files, r, k)
    ensures StopsAt(before, after, reqs, files, r, k)
  {
    SpareOthers(before, after, reqs, files, k);
    if !Clash(before, files) {
      forall i | 0 <= i < k ensures Outcome(before, after, reqs, files[i].path) {
        OutcomeOf(before, after, reqs, files, files[i]);
      }
    }
  }

  /** No requested path is a name the temporary of another may take. */
  ghost predicate Unclashing(before: Tree, reqs: seq<Request>) {
    forall p, q :: Requested(reqs, p) && Requested(reqs, q) && IsTempOf(q, p) ==> q in before
  }

  lemma UnclashingFiles(before: Tree, reqs: seq<Request>, files: seq<Output>)
    requires Collected(before, reqs, files) && Unclashing(before, reqs)
    ensures !Clash(before, files)
  {
    forall i: nat, j: nat | i < |files| && j < |files| ensures !ClashAt(before, files, i, j) {
      FileRequested(before, reqs, files, files[i]);
      FileRequested(before, reqs, files, files[j]);
    }
  }

  /** Nothing on disk or among the requests keeps a requested file from its
      path. */
  ghost predicate Unhindered(t: Tree, reqs: seq<Request>) {
    && (forall p :: Requested(reqs, p) ==> Free(t, reqs, p))
    && (forall p, q :: Requested(reqs, p) && IsTempOf(q, p) ==> !RequestedBelow(reqs, q))
  }

  ghost predicate Free(t: Tree, reqs: seq<Request>, p: Path) {
    && p != [] && (p in t && LastWrite(reqs, p).Some? ==> t[p].File?) && Passable(t, Parent(p))
    && !RequestedBelow(reqs, p) && NoTempOf(t, p)
  }

  lemma UnhinderedFeasible(t: Tree, reqs: seq<Request>, files: seq<Output>)
    requires Collected(t, reqs, files) && Unhindered(t, reqs)
    ensures Feasible(t, files)
  {
    forall f | f in files ensures Fits(t, files, f) && NoTempOf(t, f.path) {
      FileRequested(t, reqs, files, f);
      assert Free(t, reqs, f.path);
      if OnTheWay(files, f.path) { WayRequested(t, reqs, files, f.path); }
    }
    forall f, p | f in files && IsTempOf(p, f.path) ensures !OnTheWay(files, p) {
      FileRequested(t, reqs, files, f);
      if OnTheWay(files, p) { WayRequested(t, reqs, files, p); }
    }
  }

  /** Collects the requests into files and commits them. */
  method RunPass(disk: Device, reqs: seq<Request>) returns (r: Result, files: seq<Output>)
    requires disk.Valid()
    modifies disk
    ensures disk.Valid()
    ensures r.Unstaged? ==> disk.tree == old(disk.tree)
    ensures Collected(old(disk.tree), reqs, files) &&
        (Unclashing(old(disk.tree), reqs) ==> !Clash(old(disk.tree), files))
    ensures !r.Unstaged? ==> Ends(old(disk.tree), disk.tree, files, r)
    ensures !r.Unstaged? ==> PassEnds(old(disk.tree), disk.tree, reqs, files, r)
    ensures !disk.faulty && Unhindered(old(disk.tree), reqs) ==> r.Complete?
  {
    ghost var before := disk.tree;
    files := Collect(disk, reqs);
    if Unhindered(before, reqs) { UnhinderedFeasible(before, reqs, files); }
    r := Commit(disk, files);
    if !r.Unstaged? { PassConcludes(before, disk.tree, reqs, files, r); }
    if Unclashing(before, reqs) { UnclashingFiles(before, reqs, files); }
  }
}
