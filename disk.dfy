/** The disk as one mutable object: the directory operations the tool
    calls (os.makedirs, shutil.rmtree, shutil.copytree, open(..., "w"),
    os.remove, shutil.copy2) change it in place. Each precondition
    excludes a layout the model does not cover: one on which the call
    raises (a plain file where a directory must be, a missing source), or,
    for copytree, a source and destination that overlap. */
module Filesystem {
  import opened FileTree

  class Disk {
    var nodes: Tree

    ghost predicate Valid()
      reads this
    {
      Rooted(nodes)
    }

    constructor (initial: Tree)
      requires Rooted(initial)
      ensures Valid() && nodes == initial
    {
      nodes := initial;
    }

    /** os.makedirs(p, exist_ok=True) */
    method MakeDirs(p: Path)
      requires Valid() && NoFileAlong(nodes, p)
      modifies this
      ensures Valid() && nodes == AddDirs(old(nodes), p)
      ensures forall i :: 0 <= i <= |p| ==> IsDir(nodes, p[..i])
    {
      AddDirsRooted(nodes, p);
      nodes := AddDirs(nodes, p);
    }

    /** shutil.rmtree(p) */
    method RemoveTree(p: Path)
      requires Valid() && p != [] && IsDir(nodes, p)
      modifies this
      ensures Valid() && nodes == Prune(old(nodes), p)
    {
      PruneRooted(nodes, p);
      nodes := Prune(nodes, p);
    }

    /** shutil.copytree(src, dst): fails with FileExistsError, changing
        nothing, when `dst` already exists; otherwise creates the parents
        of `dst` and copies the whole tree at `src` there. */
    method CopyTree(src: Path, dst: Path) returns (ok: bool)
      requires Valid() && IsDir(nodes, src) && dst != [] && Disjoint(src, dst)
      requires NoFileAlong(nodes, Parent(dst))
      modifies this
      ensures Valid()
      ensures ok == (dst !in old(nodes))
      ensures nodes == if ok then Graft(AddDirs(old(nodes), Parent(dst)), dst, Subtree(old(nodes), src))
                       else old(nodes)
    {
      if dst in nodes {
        return false;
      }
      var s := Subtree(nodes, src);
      SubtreeRooted(nodes, src);
      AddDirsRooted(nodes, Parent(dst));
      var made := AddDirs(nodes, Parent(dst));
      assert dst !in Prefixes(Parent(dst));
      AbsentIsVacant(made, dst);
      assert Parent(dst) == Parent(dst)[..|Parent(dst)|];
      GraftRooted(made, dst, s);
      nodes := Graft(made, dst, s);
      return true;
    }

    /** open(p, "w") followed by a write: fails, changing nothing, when
        the parent directory is missing or `p` is a directory. */
    method WriteFile(p: Path, content: string) returns (ok: bool)
      requires Valid() && p != []
      modifies this
      ensures Valid()
      ensures ok == (IsDir(old(nodes), Parent(p)) && !IsDir(old(nodes), p))
      ensures nodes == if ok then old(nodes)[p := File(content)] else old(nodes)
    {
      ok := IsDir(nodes, Parent(p)) && !IsDir(nodes, p);
      if ok {
        WriteRooted(nodes, p, content);
        nodes := nodes[p := File(content)];
      }
    }

    /** os.remove(p) on a plain file. */
    method RemoveFile(p: Path)
      requires Valid() && IsFile(nodes, p)
      modifies this
      ensures Valid() && nodes == old(nodes) - {p}
    {
      RemoveFileRooted(nodes, p);
      nodes := nodes - {p};
    }

    /** shutil.copy2(src, dst) from a plain file: the copy lands at `dst`,
        or inside it under the source's name when `dst` is a directory;
        metadata is not modelled. */
    method CopyFile(src: Path, dst: Path)
      requires Valid() && src != [] && IsFile(nodes, src) && dst != []
      requires IsDir(nodes, Parent(dst)) && !IsDir(nodes, CopyTarget(nodes, src, dst))
      requires CopyTarget(nodes, src, dst) != src
      modifies this
      ensures Valid() && nodes == old(nodes)[CopyTarget(old(nodes), src, dst) := old(nodes)[src]]
    {
      var target := CopyTarget(nodes, src, dst);
      WriteRooted(nodes, target, nodes[src].content);
      nodes := nodes[target := nodes[src]];
    }
  }
}
