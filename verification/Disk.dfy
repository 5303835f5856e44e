/** A file tree and the operations that change it, any of which may fail. */
module Disk {
  /** A cleaned path as its components; [] is the root. */
  type Path = seq<string>

  type Body = string

  datatype Node = File(body: Body) | Dir

  type Tree = map<Path, Node>

  function Parent(p: Path): Path { if p == [] then [] else p[..|p| - 1] }

  /** The root is a directory, and so is the parent of everything. */
  ghost predicate WellFormed(t: Tree) {
    && [] in t && t[[]] == Dir
    && forall p {:trigger Seated(t, p)} :: p in t ==> Seated(t, p)
  }

  /** The parent of p is a directory. */
  predicate Seated(t: Tree, p: Path) { Parent(p) in t && t[Parent(p)] == Dir }

  /** Everything on the way to what a tree holds is a directory. */
  lemma {:induction false} WaysAreDirs(t: Tree, p: Path, i: nat)
    requires WellFormed(t) && p in t && i < |p|
    ensures p[..i] in t && t[p[..i]] == Dir
    decreases |p|
  {
    assert Seated(t, p);
    if i < |p| - 1 {
      WaysAreDirs(t, Parent(p), i);
      assert Parent(p)[..i] == p[..i];
    }
  }

  lemma AddWellFormed(t: Tree, p: Path, n: Node)
    requires WellFormed(t) && p !in t && Seated(t, p)
    ensures WellFormed(t[p := n])
  {
    var u := t[p := n];
    forall q | q in u ensures Seated(u, q) { assert q == p || Seated(t, q); }
  }

  lemma WriteWellFormed(t: Tree, p: Path, body: Body)
    requires WellFormed(t) && p in t && t[p].File?
    ensures WellFormed(t[p := File(body)])
  {
    forall q | q in t ensures Seated(t[p := File(body)], q) { assert Seated(t, q); }
  }

  lemma RemoveWellFormed(t: Tree, p: Path)
    requires WellFormed(t) && Removable(t, p)
    ensures WellFormed(t - {p})
  {
    forall q | q in t && q != p ensures Seated(t - {p}, q) { assert Seated(t, q); }
  }

  /** A file has nothing below it. */
  lemma FileRemovable(t: Tree, p: Path)
    requires WellFormed(t) && p in t && t[p].File?
    ensures Removable(t, p)
  {
    forall q | q in t && q != [] ensures Parent(q) != p { assert Seated(t, q); }
  }

  lemma RenameWellFormed(t: Tree, from: Path, to: Path)
    requires WellFormed(t) && from in t && t[from].File? && from != to
    requires Seated(t, to) && (to in t ==> t[to].File?)
    ensures WellFormed(t[to := t[from]] - {from})
  {
    var u := t[to := t[from]];
    if to in t { WriteWellFormed(t, to, t[from].body); } else { AddWellFormed(t, to, t[from]); }
    FileRemovable(u, from);
    RemoveWellFormed(u, from);
  }

  /** t and u hold the same at p. */
  predicate SameAt(t: Tree, u: Tree, p: Path) {
    (p in t <==> p in u) && (p in t ==> t[p] == u[p])
  }

  datatype Status = Found(node: Node) | Missing | Unreadable

  datatype Outcome = Done | AlreadyThere | Failed

  /** Whether a file stands where p needs a directory. */
  predicate BelowFile(t: Tree, p: Path) {
    exists i :: 0 <= i < |p| && p[..i] in t && t[p[..i]].File?
  }

  /** No file stands at dir or above it. */
  predicate Passable(t: Tree, dir: Path) {
    forall i :: 0 <= i <= |dir| && dir[..i] in t ==> t[dir[..i]].Dir?
  }

  class Device {
    var tree: Tree
    /** Whether an operation may fail for a reason outside the tree. */
    const faulty: bool

    ghost predicate Valid() reads this { WellFormed(tree) }

    constructor (t: Tree, faulty: bool)
      requires WellFormed(t)
      ensures Valid() && tree == t && this.faulty == faulty
    {
      tree := t;
      this.faulty := faulty;
    }

    /** An outside failure, or none. */
    method Fault() returns (fault: bool)
      ensures fault ==> faulty
    {
      fault := *;
      fault := fault && faulty;
    }

    method Lstat(p: Path) returns (r: Status)
      ensures r.Found? ==> p in tree && tree[p] == r.node
      ensures r.Missing? ==> p !in tree
      ensures !faulty && (p in tree || !BelowFile(tree, p)) ==> !r.Unreadable?
    {
      var fault := Fault();
      if fault { return Unreadable; }
      if p in tree { return Found(tree[p]); }
      return if BelowFile(tree, p) then Unreadable else Missing;
    }

    method Mkdir(p: Path) returns (r: Outcome)
      requires Valid()
      modifies this
      ensures Valid()
      ensures r.Done? ==> p !in old(tree) && tree == old(tree)[p := Dir] && Seated(old(tree), p)
      ensures !r.Done? ==> tree == old(tree)
      ensures !faulty && Seated(old(tree), p) && p !in old(tree) ==> r.Done?
      ensures r.AlreadyThere? <==> p in old(tree)
    {
      if p in tree { return AlreadyThere; }
      var fault := Fault();
      if fault || !Seated(tree, p) { return Failed; }
      AddWellFormed(tree, p, Dir);
      tree := tree[p := Dir];
      return Done;
    }

    /** Makes an empty file where nothing is. */
    method Create(p: Path) returns (r: Outcome)
      requires Valid()
      modifies this
      ensures Valid()
      ensures r.Done? ==> p !in old(tree) && tree == old(tree)[p := File("")] && Seated(old(tree), p)
      ensures !r.Done? ==> tree == old(tree)
      ensures !faulty && Seated(old(tree), p) && p !in old(tree) ==> r.Done?
      ensures r.AlreadyThere? <==> p in old(tree)
    {
      if p in tree { return AlreadyThere; }
      var fault := Fault();
      if fault || !Seated(tree, p) { return Failed; }
      AddWellFormed(tree, p, File(""));
      tree := tree[p := File("")];
      return Done;
    }

    /** Writes an existing file, or part of the body on a failure. */
    method Write(p: Path, body: Body) returns (ok: bool)
      requires Valid() && p in tree && tree[p].File?
      modifies this
      ensures Valid()
      ensures ok ==> tree == old(tree)[p := File(body)]
      ensures !ok ==> exists part :: tree == old(tree)[p := File(part)]
      ensures !faulty ==> ok
    {
      var fault := Fault();
      ok := !fault;
      var written := body;
      if !ok {
        var n: int := *;
        if 0 <= n <= |body| { written := body[..n]; }
      }
      WriteWellFormed(tree, p, written);
      tree := tree[p := File(written)];
    }

    /** Removes a file or an empty directory. */
    method Remove(p: Path)
      requires Valid()
      modifies this
      ensures Valid()
      ensures tree == if Removable(old(tree), p) then old(tree) - {p} else old(tree)
    {
      if Removable(tree, p) { RemoveWellFormed(tree, p); tree := tree - {p}; }
    }

    /** Moves a file over its target, which may not be a directory. */
    method Rename(from: Path, to: Path) returns (ok: bool)
      requires Valid() && from in tree && tree[from].File? && from != to
      modifies this
      ensures Valid()
      ensures ok ==> (to in old(tree) ==> old(tree)[to].File?) && tree == old(tree)[to := old(tree)[from]] - {from}
      ensures !ok ==> tree == old(tree)
      ensures !faulty && Seated(old(tree), to) && (to in old(tree) ==> old(tree)[to].File?) ==> ok
    {
      var fault := Fault();
      if fault || !Seated(tree, to) || (to in tree && tree[to].Dir?) { return false; }
      RenameWellFormed(tree, from, to);
      tree := tree[to := tree[from]] - {from};
      return true;
    }
  }

  /** p is there, and nothing is below it. */
  predicate Removable(t: Tree, p: Path) {
    p in t && p != [] && forall q :: q in t && q != [] ==> Parent(q) != p
  }
}
