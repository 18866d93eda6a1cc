/** The project registry (projects/project_manager.py): an index from owner
    to the ordered list of their project names (data/projects.json), kept
    alongside each project's directory skeleton. */
module ProjectRegistry {
  import opened Values
  import opened FileTree
  import opened Filesystem
  import opened Permissions
  import opened UserRegistry

  type ProjectIndex = map<UserName, seq<string>>

  /** repo_root/<owner>/<project>/branches */
  function BranchesDir(owner: UserName, project: string): Path
  {
    [RepoRoot, owner, project, "branches"]
  }

  /** repo_root/<owner>/<project>/branches/main, the default branch. */
  function MainBranch(owner: UserName, project: string): Path
  {
    BranchesDir(owner, project) + ["main"]
  }

  /** The index after create_project(owner, project). */
  function WithProject(index: ProjectIndex, owner: UserName, project: string): ProjectIndex
  {
    var projects := if owner in index then index[owner] else [];
    if project in projects then index else index[owner := projects + [project]]
  }

  /** The directories after create_project: branches/main/temporal and
      branches/main/permanente, with every missing parent. */
  function WithSkeleton(t: Tree, owner: UserName, project: string): Tree
  {
    AddDirs(AddDirs(t, MainBranch(owner, project) + ["temporal"]), MainBranch(owner, project) + ["permanente"])
  }

  class ProjectManager {
    /** data/projects.json */
    var index: ProjectIndex

    /** ProjectManager(): an empty index when no document exists yet. */
    constructor (stored: Option<ProjectIndex>)
      ensures index == stored.GetOr(map[])
    {
      index := stored.GetOr(map[]);
    }

    /** create_project(username, project_name) */
    method CreateProject(disk: Disk, owner: UserName, project: string) returns (created: bool)
      requires disk.Valid()
      requires project !in ListProjects(owner, true) ==>
                 && NoFileAlong(disk.nodes, MainBranch(owner, project) + ["temporal"])
                 && NoFileAlong(disk.nodes, MainBranch(owner, project) + ["permanente"])
      modifies this, disk
      ensures disk.Valid()
      ensures created == (project !in old(ListProjects(owner, true)))
      ensures index == WithProject(old(index), owner, project)
      ensures disk.nodes == if created then WithSkeleton(old(disk.nodes), owner, project) else old(disk.nodes)
    {
      var projects := index;
      if owner !in projects {
        projects := projects[owner := []];
      }
      if project in projects[owner] {
        return false;
      }
      var base := MainBranch(owner, project);
      disk.MakeDirs(base + ["temporal"]);
      KeepsNoFileAlong(old(disk.nodes), base + ["temporal"], base + ["permanente"]);
      disk.MakeDirs(base + ["permanente"]);
      projects := projects[owner := projects[owner] + [project]];
      index := projects;
      return true;
    }

    /** list_projects(username, silent): `silent` only suppresses printing. */
    function ListProjects(owner: UserName, silent: bool): (projects: seq<string>)
      reads this
      ensures owner !in index ==> projects == []
      ensures owner in index ==> projects == index[owner]
    {
      if owner in index then index[owner] else []
    }
  }

  /** Creating directories never puts a file in the way of another makedirs. */
  lemma KeepsNoFileAlong(t: Tree, p: Path, q: Path)
    requires NoFileAlong(t, q)
    ensures NoFileAlong(AddDirs(t, p), q)
  {
  }

  /** list_branches(username, project_name): the names of the subdirectories
      of the branches directory (a set: os.listdir order is unspecified). */
  function ListBranches(t: Tree, owner: UserName, project: string): (names: set<string>)
    requires !IsFile(t, BranchesDir(owner, project))
    ensures forall n :: n in names <==> IsDir(t, BranchesDir(owner, project) + [n])
  {
    var dir := BranchesDir(owner, project);
    var found := set q | q in t && |q| == |dir| + 1 && dir <= q && t[q] == Dir :: q[|dir|];
    assert forall n :: IsDir(t, dir + [n]) ==> (dir + [n])[|dir|] == n && dir <= dir + [n];
    assert forall q :: |q| == |dir| + 1 && dir <= q ==> q == dir + [q[|dir|]];
    found
  }

  /** An existing project leaves the index as it is; a new one goes at the
      end of its owner's list, whether or not the owner is a registered
      user, and no other owner's list changes. */
  lemma CreateProjectAppends(index: ProjectIndex, owner: UserName, project: string)
    ensures var projects := if owner in index then index[owner] else [];
      && (project in projects ==> WithProject(index, owner, project) == index)
      && (project !in projects ==> WithProject(index, owner, project)[owner] == projects + [project])
      && (forall o :: o in index && o != owner ==>
            o in WithProject(index, owner, project) && WithProject(index, owner, project)[o] == index[o])
  {
  }

  /** After the skeleton is made, branches/main/temporal and
      branches/main/permanente are directories, main is listed as a branch,
      and no versiones directory has been created. */
  lemma {:induction false} SkeletonLayout(t: Tree, owner: UserName, project: string)
    requires Rooted(t)
    requires NoFileAlong(t, MainBranch(owner, project) + ["temporal"])
    requires NoFileAlong(t, MainBranch(owner, project) + ["permanente"])
    ensures var after := WithSkeleton(t, owner, project);
      && Rooted(after)
      && IsDir(after, MainBranch(owner, project) + ["temporal"])
      && IsDir(after, MainBranch(owner, project) + ["permanente"])
      && "main" in ListBranches(after, owner, project)
      && ((MainBranch(owner, project) + ["versiones"]) in after <==> (MainBranch(owner, project) + ["versiones"]) in t)
  {
    var base := MainBranch(owner, project);
    var temp := base + ["temporal"];
    var perm := base + ["permanente"];
    var mid := AddDirs(t, temp);
    AddDirsRooted(t, temp);
    KeepsNoFileAlong(t, temp, perm);
    AddDirsRooted(mid, perm);
    assert temp[..|temp|] == temp;
    assert perm[..|perm|] == perm;
    assert perm[..|base|] == base;
    assert base == BranchesDir(owner, project) + ["main"];
    var v := base + ["versiones"];
    assert v !in Prefixes(temp) && v !in Prefixes(perm);
  }

  /** With no branches directory there are no branches. */
  lemma NoBranchesWithoutDir(t: Tree, owner: UserName, project: string)
    requires Rooted(t) && BranchesDir(owner, project) !in t
    ensures ListBranches(t, owner, project) == {}
  {
  }
}
