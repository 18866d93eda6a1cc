/** The snapshot engine (core/version_control.py): commit, update, list the
    versions, recover a version or one file of it, and list a version's
    files. Every operation reads the active context record; commit works
    under the record's own path, while update, listing and recovery find the
    baseline and the versions under repo_root/<owner>/<project>/branches/<branch>. */
module VersionControl {
  import opened Values
  import opened FileTree
  import opened Filesystem
  import opened Names
  import opened Permissions
  import opened UserRegistry

  /** The record these operations read: usuario_actual, usuario_proyecto,
      proyecto, rama and path. */
  datatype Context = Context(actor: UserName, owner: UserName, project: string, branch: string, path: Path)

  /** <path>/temporal: the working tree every operation writes. */
  function WorkingDir(c: Context): Path { c.path + ["temporal"] }

  /** <path>/permanente and <path>/versiones: where commit writes. */
  function CommitBaseline(c: Context): Path { c.path + ["permanente"] }
  function CommitVersions(c: Context): Path { c.path + ["versiones"] }

  /** A child of the context's path other than the three commit uses,
      such as a file create_file writes there. */
  predicate Other(x: string) { x != "temporal" && x != "permanente" && x != "versiones" }

  /** repo_root/<owner>/<project>/branches/<branch>: where the others read. */
  function BranchDir(c: Context): Path { [RepoRoot, c.owner, c.project, "branches", c.branch] }
  function Baseline(c: Context): Path { BranchDir(c) + ["permanente"] }
  function VersionsDir(c: Context): Path { BranchDir(c) + ["versiones"] }

  /** The commit time as the number its "%Y%m%d%H%M%S" rendering spells. */
  const StampWidth: nat := 14
  type Stamp = n: nat | n < Pow10(StampWidth)

  /** "v_" followed by the 14-digit timestamp. */
  function VersionName(ts: Stamp): (name: string)
    ensures |name| == 2 + StampWidth && name[..2] == "v_"
    ensures forall i :: 2 <= i < |name| ==> '0' <= name[i] <= '9'
  {
    "v_" + Digits(ts, StampWidth)
  }

  // ---------------------------------------------------------------- commit

  datatype CommitOutcome =
    | NoCommitContext
    | NoWorkingTree
    | Committed(version: string)
      /** copytree found v_<ts> already there: permanente is already replaced. */
    | VersionExists(version: string)

  /** What commit's copies need not to raise once temporal is found:
      temporal and permanente are not plain files, and makedirs(versiones)
      meets only directories along its way. */
  ghost predicate CommitLayout(t: Tree, c: Context)
  {
    && !IsFile(t, WorkingDir(c))
    && !IsFile(t, CommitBaseline(c))
    && NoFileAlong(t, CommitVersions(c))
  }

  /** The disk after rmtree(permanente), if present, and makedirs(versiones). */
  function Cleared(t: Tree, c: Context): Tree
  {
    var t1 := if CommitBaseline(c) in t then Prune(t, CommitBaseline(c)) else t;
    AddDirs(t1, CommitVersions(c))
  }

  /** The disk after copytree(temporal, permanente) as well. */
  function BaselineReplaced(t: Tree, c: Context): Tree
  {
    var t2 := Cleared(t, c);
    Graft(AddDirs(t2, c.path), CommitBaseline(c), Subtree(t2, WorkingDir(c)))
  }

  /** commit(): the outcome and the disk afterwards. */
  function CommitResult(t: Tree, ctx: Option<Context>, ts: Stamp): (CommitOutcome, Tree)
  {
    if ctx.None? then (NoCommitContext, t)
    else
      var c := ctx.value;
      if WorkingDir(c) !in t then (NoWorkingTree, t)
      else
        var t3 := BaselineReplaced(t, c);
        var name := VersionName(ts);
        var v := CommitVersions(c) + [name];
        if v in t3 then (VersionExists(name), t3)
        else (Committed(name), Graft(AddDirs(t3, CommitVersions(c)), v, Subtree(t3, CommitBaseline(c))))
  }

  /** commit() */
  method Commit(disk: Disk, ctx: Option<Context>, ts: Stamp) returns (outcome: CommitOutcome)
    requires disk.Valid()
    requires ctx.Some? && WorkingDir(ctx.value) in disk.nodes ==> CommitLayout(disk.nodes, ctx.value)
    modifies disk
    ensures disk.Valid()
    ensures (outcome, disk.nodes) == CommitResult(old(disk.nodes), ctx, ts)
  {
    if ctx.None? {
      return NoCommitContext;
    }
    var c := ctx.value;
    var temp, perm, versions := WorkingDir(c), CommitBaseline(c), CommitVersions(c);
    if temp !in disk.nodes {
      return NoWorkingTree;
    }
    ghost var t0 := disk.nodes;
    if perm in disk.nodes {
      disk.RemoveTree(perm);
    }
    PruneKeepsDirs(t0, perm, versions);
    disk.MakeDirs(versions);
    ClearedLayout(t0, c);
    var copied := disk.CopyTree(temp, perm);
    var name := VersionName(ts);
    ReplacedLayout(t0, c, name);
    var snapshot := disk.CopyTree(perm, versions + [name]);
    outcome := if snapshot then Committed(name) else VersionExists(name);
  }

  /** What copytree(temporal, permanente) needs after the first two steps. */
  lemma ClearedLayout(t: Tree, c: Context)
    requires Rooted(t) && CommitLayout(t, c) && WorkingDir(c) in t
    ensures var t2 := Cleared(t, c);
      && Rooted(t2)
      && IsDir(t2, WorkingDir(c))
      && CommitBaseline(c) !in t2
      && Disjoint(WorkingDir(c), CommitBaseline(c))
      && NoFileAlong(t2, c.path)
      && (forall i :: 0 <= i <= |CommitVersions(c)| ==> IsDir(t2, CommitVersions(c)[..i]))
  {
    var perm, versions := CommitBaseline(c), CommitVersions(c);
    var t1 := PermanenteRemoved(t, c);
    AddDirsRooted(t1, versions);
    var t2 := AddDirs(t1, versions);
    assert t2 == Cleared(t, c);
    assert perm !in Prefixes(versions);
    forall i | 0 <= i <= |c.path| ensures c.path[..i] == versions[..i] { }
  }

  /** The disk after rmtree(permanente), if present. */
  lemma PermanenteRemoved(t: Tree, c: Context) returns (t1: Tree)
    requires Rooted(t) && CommitLayout(t, c) && WorkingDir(c) in t
    ensures t1 == if CommitBaseline(c) in t then Prune(t, CommitBaseline(c)) else t
    ensures Rooted(t1) && IsDir(t1, WorkingDir(c)) && CommitBaseline(c) !in t1
    ensures NoFileAlong(t1, CommitVersions(c))
    ensures Disjoint(WorkingDir(c), CommitBaseline(c))
  {
    var perm := CommitBaseline(c);
    SiblingsDisjoint(c.path, "temporal", "permanente");
    if perm in t {
      PruneRooted(t, perm);
      PruneKeepsDirs(t, perm, CommitVersions(c));
      t1 := Prune(t, perm);
    } else {
      t1 := t;
    }
  }

  /** What copytree(permanente, versiones/<name>) needs after the first three steps. */
  lemma ReplacedLayout(t: Tree, c: Context, name: string)
    requires Rooted(t) && CommitLayout(t, c) && WorkingDir(c) in t
    ensures var t3 := BaselineReplaced(t, c);
      && Rooted(t3)
      && IsDir(t3, CommitBaseline(c))
      && Disjoint(CommitBaseline(c), CommitVersions(c) + [name])
      && NoFileAlong(t3, CommitVersions(c))
  {
    var temp, perm, versions := WorkingDir(c), CommitBaseline(c), CommitVersions(c);
    var t2 := Cleared(t, c);
    ClearedLayout(t, c);
    var u := AddDirs(t2, c.path);
    AddDirsRooted(t2, c.path);
    SubtreeRooted(t2, temp);
    AbsentIsVacant(u, perm);
    GraftRooted(u, perm, Subtree(t2, temp));
    GraftAt(u, perm, Subtree(t2, temp), perm);
    SubtreeAt(t2, temp, []);
    assert perm[|perm|..] == [] && temp + [] == temp;
    SiblingsDisjoint(c.path, "permanente", "versiones");
    DisjointExtend(versions, perm, [name]);
    KeepsDirs(u, perm, Subtree(t2, temp), versions);
  }

  // ---------------------------------------------------------------- update

  /** rmtree(dst) if it exists, then copytree(src, dst): how update and
      recover replace the working tree. */
  function Replaced(t: Tree, src: Path, dst: Path): Tree
    requires dst != []
  {
    var t1 := if dst in t then Prune(t, dst) else t;
    Graft(AddDirs(t1, Parent(dst)), dst, Subtree(t1, src))
  }

  datatype UpdateOutcome = NoUpdateContext | NoBaseline | Updated

  /** What update's rmtree and copytree need not to raise once permanente
      is found; the two must not overlap, a case the model does not cover. */
  ghost predicate UpdateLayout(t: Tree, c: Context)
  {
    && !IsFile(t, Baseline(c))
    && !IsFile(t, WorkingDir(c))
    && Disjoint(Baseline(c), WorkingDir(c))
    && NoFileAlong(t, c.path)
  }

  /** update(): the outcome and the disk afterwards. */
  function UpdateResult(t: Tree, ctx: Option<Context>): (UpdateOutcome, Tree)
  {
    if ctx.None? then (NoUpdateContext, t)
    else
      var c := ctx.value;
      if Baseline(c) !in t then (NoBaseline, t)
      else (Updated, Replaced(t, Baseline(c), WorkingDir(c)))
  }

  /** update(): temporal is replaced wholesale by a copy of the branch's
      permanente; uncommitted work in temporal is lost. */
  method Update(disk: Disk, ctx: Option<Context>) returns (outcome: UpdateOutcome)
    requires disk.Valid()
    requires ctx.Some? && Baseline(ctx.value) in disk.nodes ==> UpdateLayout(disk.nodes, ctx.value)
    modifies disk
    ensures disk.Valid()
    ensures (outcome, disk.nodes) == UpdateResult(old(disk.nodes), ctx)
  {
    if ctx.None? {
      return NoUpdateContext;
    }
    var c := ctx.value;
    var temp, perm := WorkingDir(c), Baseline(c);
    if perm !in disk.nodes {
      return NoBaseline;
    }
    if temp in disk.nodes {
      disk.RemoveTree(temp);
    }
    assert Parent(temp) == c.path;
    var copied := disk.CopyTree(perm, temp);
    return Updated;
  }

  // ---------------------------------------------------------------- listing

  /** list_versions(): the entries of the branch's versiones directory in
      ascending order, or none without a context or a versiones directory. */
  method ListVersions(t: Tree, ctx: Option<Context>) returns (versions: seq<string>)
    requires Rooted(t)
    requires ctx.Some? ==> !IsFile(t, VersionsDir(ctx.value))
    ensures StrictlySorted(versions)
    ensures forall n :: n in versions <==> ctx.Some? && VersionsDir(ctx.value) + [n] in t
  {
    if ctx.None? {
      return [];
    }
    var dir := VersionsDir(ctx.value);
    if dir !in t {
      forall n ensures dir + [n] !in t {
        AbsentIsVacant(t, dir);
      }
      return [];
    }
    var names := set q | q in t && |q| == |dir| + 1 && dir <= q :: q[|dir|];
    forall n ensures n in names <==> dir + [n] in t {
      assert (dir + [n])[|dir|] == n && dir <= dir + [n];
      if n in names {
        var q :| q in t && |q| == |dir| + 1 && dir <= q && q[|dir|] == n;
        assert q == dir + [n];
      }
    }
    versions := Sort(names);
  }

  /** list_files_in_version(version): the relative path of every regular
      file under the version, each once (os.walk order is not modelled). */
  method ListFilesInVersion(t: Tree, ctx: Option<Context>, version: string) returns (files: seq<Path>)
    requires Rooted(t)
    ensures forall i, j :: 0 <= i < j < |files| ==> files[i] != files[j]
    ensures forall r :: r in files <==> ctx.Some? && r != [] && IsFile(t, VersionsDir(ctx.value) + [version] + r)
  {
    if ctx.None? {
      return [];
    }
    var dir := VersionsDir(ctx.value) + [version];
    if dir !in t {
      forall r ensures dir + r !in t {
        AbsentIsVacant(t, dir);
        assert dir <= dir + r;
      }
      return [];
    }
    files := [];
    var todo := t.Keys;
    while todo != {}
      invariant todo <= t.Keys
      invariant forall r :: r in files <==> r != [] && IsFile(t, dir + r) && dir + r !in todo
      invariant forall i, j :: 0 <= i < j < |files| ==> files[i] != files[j]
      decreases todo
    {
      var q :| q in todo;
      if dir <= q && |q| > |dir| && t[q].File? {
        var r := q[|dir|..];
        assert q == dir + r;
        files := files + [r];
      }
      forall r ensures dir + r == q ==> r == q[|dir|..] {
        assert (dir + r)[|dir|..] == r;
      }
      todo := todo - {q};
    }
  }

  // ---------------------------------------------------------------- recover

  datatype RecoverOutcome = NoRecoverContext | VersionNotFound | FileNotInVersion | Declined | Recovered

  /** The version directory recover and list_files_in_version read. */
  function VersionDir(c: Context, version: string): Path { VersionsDir(c) + [version] }

  /** Whether recover gets past its existence checks and its prompt to
      the copy: the version exists, in file mode the file exists in it,
      and an existing destination needs the answer "s". */
  predicate RecoverProceeds(t: Tree, c: Context, version: string, rel: Path, isFile: bool, confirmed: bool)
  {
    && VersionDir(c, version) in t
    && if isFile then VersionDir(c, version) + rel in t && (WorkingDir(c) + rel in t ==> confirmed)
       else WorkingDir(c) in t ==> confirmed
  }

  /** What the copy recover reaches needs not to raise. In file mode: a
      non-empty relative path naming a plain file of the version, only
      directories along the destination's parent, and a place copy2 writes
      that is neither a directory nor the source itself. In tree mode: a
      version that is a directory and a working tree that is not a plain
      file; the two must not overlap, a case the model does not cover. */
  ghost predicate RecoverLayout(t: Tree, c: Context, version: string, rel: Path, isFile: bool)
  {
    if isFile then
      var src, dst := VersionDir(c, version) + rel, WorkingDir(c) + rel;
      && rel != []
      && IsFile(t, src)
      && NoFileAlong(t, WorkingDir(c) + Parent(rel))
      && !IsDir(t, CopyTarget(t, src, dst))
      && CopyTarget(t, src, dst) != src
    else
      && IsDir(t, VersionDir(c, version))
      && !IsFile(t, WorkingDir(c))
      && Disjoint(VersionDir(c, version), WorkingDir(c))
      && NoFileAlong(t, c.path)
  }

  /** recover(version, rel, is_file=True): the outcome and the disk afterwards. */
  function RecoverFileResult(t: Tree, c: Context, version: string, rel: Path, overwrite: bool): (RecoverOutcome, Tree)
  {
    var src := VersionDir(c, version) + rel;
    var dst := WorkingDir(c) + rel;
    if VersionDir(c, version) !in t then (VersionNotFound, t)
    else if src !in t then (FileNotInVersion, t)
    else if dst in t && !overwrite then (Declined, t)
    else (Recovered, AddDirs(t, Parent(dst))[CopyTarget(t, src, dst) := t[src]])
  }

  /** recover(version, is_file=False): the outcome and the disk afterwards. */
  function RecoverTreeResult(t: Tree, c: Context, version: string, confirmed: bool): (RecoverOutcome, Tree)
  {
    var v := VersionDir(c, version);
    var temp := WorkingDir(c);
    if v !in t then (VersionNotFound, t)
    else if temp in t && !confirmed then (Declined, t)
    else (Recovered, Replaced(t, v, temp))
  }

  /** recover(version, path_relativa, is_file), with the answer to its
      overwrite prompt as `confirmed`. */
  method Recover(disk: Disk, ctx: Option<Context>, version: string, rel: Path, isFile: bool, confirmed: bool)
    returns (outcome: RecoverOutcome)
    requires disk.Valid()
    requires ctx.Some? && RecoverProceeds(disk.nodes, ctx.value, version, rel, isFile, confirmed) ==>
      RecoverLayout(disk.nodes, ctx.value, version, rel, isFile)
    modifies disk
    ensures disk.Valid()
    ensures ctx.None? ==> outcome == NoRecoverContext && disk.nodes == old(disk.nodes)
    ensures ctx.Some? && isFile ==>
      (outcome, disk.nodes) == RecoverFileResult(old(disk.nodes), ctx.value, version, rel, confirmed)
    ensures ctx.Some? && !isFile ==>
      (outcome, disk.nodes) == RecoverTreeResult(old(disk.nodes), ctx.value, version, confirmed)
  {
    if ctx.None? {
      return NoRecoverContext;
    }
    if isFile {
      outcome := RecoverFile(disk, ctx.value, version, rel, confirmed);
    } else {
      outcome := RecoverTree(disk, ctx.value, version, confirmed);
    }
  }

  /** The is_file branch of recover: copy one file back into temporal. */
  method RecoverFile(disk: Disk, c: Context, version: string, rel: Path, confirmed: bool)
    returns (outcome: RecoverOutcome)
    requires disk.Valid()
    requires RecoverProceeds(disk.nodes, c, version, rel, true, confirmed) ==> RecoverLayout(disk.nodes, c, version, rel, true)
    modifies disk
    ensures disk.Valid()
    ensures (outcome, disk.nodes) == RecoverFileResult(old(disk.nodes), c, version, rel, confirmed)
  {
    var v := VersionDir(c, version);
    if v !in disk.nodes {
      return VersionNotFound;
    }
    var src, dst := v + rel, WorkingDir(c) + rel;
    if src !in disk.nodes {
      return FileNotInVersion;
    }
    if dst in disk.nodes && !confirmed {
      return Declined;
    }
    ghost var t := disk.nodes;
    assert Parent(dst) == WorkingDir(c) + Parent(rel);
    PrefixesShorter(Parent(dst), dst);
    PrefixesShorter(Parent(dst), dst + [src[|src| - 1]]);
    disk.MakeDirs(Parent(dst));
    assert Parent(dst)[..|Parent(dst)|] == Parent(dst);
    assert CopyTarget(disk.nodes, src, dst) == CopyTarget(t, src, dst);
    disk.CopyFile(src, dst);
    return Recovered;
  }

  /** The whole-version branch of recover: temporal becomes a copy of the version. */
  method RecoverTree(disk: Disk, c: Context, version: string, confirmed: bool)
    returns (outcome: RecoverOutcome)
    requires disk.Valid()
    requires RecoverProceeds(disk.nodes, c, version, [], false, confirmed) ==> RecoverLayout(disk.nodes, c, version, [], false)
    modifies disk
    ensures disk.Valid()
    ensures (outcome, disk.nodes) == RecoverTreeResult(old(disk.nodes), c, version, confirmed)
  {
    var v, temp := VersionDir(c, version), WorkingDir(c);
    if v !in disk.nodes {
      return VersionNotFound;
    }
    if temp in disk.nodes {
      if !confirmed {
        return Declined;
      }
      disk.RemoveTree(temp);
    }
    assert Parent(temp) == c.path;
    var copied := disk.CopyTree(v, temp);
    return Recovered;
  }

  // ---------------------------------------------------------------- properties

  /** A later commit gets a name that sorts after an earlier one, so
      list_versions lists versions oldest first. */
  lemma VersionNamesOrdered(earlier: Stamp, later: Stamp)
    requires earlier < later
    ensures LexLess(VersionName(earlier), VersionName(later))
  {
    DigitsOrdered(earlier, later, StampWidth);
    LexLessCommonPrefix("v_", Digits(earlier, StampWidth), Digits(later, StampWidth));
  }

  /** The first three commit steps change nothing beside permanente and the
      directories along versiones. */
  lemma BaselineReplacedFrame(t: Tree, c: Context, b: Path)
    requires Rooted(t) && CommitLayout(t, c) && WorkingDir(c) in t
    requires Disjoint(CommitBaseline(c), b) && !(b <= CommitVersions(c)) && !(b <= c.path)
    ensures Subtree(BaselineReplaced(t, c), b) == Subtree(t, b)
  {
    var perm := CommitBaseline(c);
    var t1 := PermanenteRemoved(t, c);
    if perm in t {
      SubtreeOfPruneElsewhere(t, perm, b);
    }
    SubtreeOfAddDirsElsewhere(t1, CommitVersions(c), b);
    var t2 := Cleared(t, c);
    SubtreeOfCopyElsewhere(t2, c.path, perm, Subtree(t2, WorkingDir(c)), b);
  }

  /** After the first three commit steps permanente holds a copy of
      temporal; temporal, the versions and everything outside the
      context's path are as they were. */
  lemma BaselineReplacedEffect(t: Tree, c: Context)
    requires Rooted(t) && CommitLayout(t, c) && WorkingDir(c) in t
    ensures var t3 := BaselineReplaced(t, c);
      && Subtree(t3, CommitBaseline(c)) == Subtree(t, WorkingDir(c))
      && Subtree(t3, WorkingDir(c)) == Subtree(t, WorkingDir(c))
      && (forall n :: Subtree(t3, CommitVersions(c) + [n]) == Subtree(t, CommitVersions(c) + [n]))
      && (forall x :: Other(x) ==> Subtree(t3, c.path + [x]) == Subtree(t, c.path + [x]))
      && (forall b :: Disjoint(b, c.path) ==> Subtree(t3, b) == Subtree(t, b))
  {
    var temp, perm, versions := WorkingDir(c), CommitBaseline(c), CommitVersions(c);
    var t1 := PermanenteRemoved(t, c);
    var t2 := Cleared(t, c);
    ClearedLayout(t, c);
    var u := AddDirs(t2, c.path);
    AddDirsRooted(t2, c.path);
    PrefixesShorter(c.path, perm);
    AbsentIsVacant(u, perm);
    SubtreeOfGraft(u, perm, Subtree(t2, temp));
    SiblingsDisjoint(c.path, "temporal", "versiones");
    SubtreeOfAddDirsElsewhere(t1, versions, temp);
    if perm in t {
      SubtreeOfPruneElsewhere(t, perm, temp);
    }
    BaselineReplacedFrame(t, c, temp);
    forall n ensures Subtree(BaselineReplaced(t, c), versions + [n]) == Subtree(t, versions + [n]) {
      SiblingsDisjoint(c.path, "versiones", "permanente");
      DisjointExtend(versions, perm, [n]);
      BaselineReplacedFrame(t, c, versions + [n]);
    }
    forall x | Other(x) ensures Subtree(BaselineReplaced(t, c), c.path + [x]) == Subtree(t, c.path + [x]) {
      SiblingsDisjoint(c.path, "permanente", x);
      assert (c.path + [x])[|c.path|] == x;
      BaselineReplacedFrame(t, c, c.path + [x]);
    }
    forall b | Disjoint(b, c.path) ensures Subtree(BaselineReplaced(t, c), b) == Subtree(t, b) {
      DisjointExtend(c.path, b, ["permanente"]);
      DisjointExtend(c.path, b, ["versiones"]);
      BaselineReplacedFrame(t, c, b);
    }
  }

  /** What one commit does. permanente becomes a copy of temporal and
      temporal is kept, whatever the outcome. The snapshot versiones/v_<ts>
      is a copy of temporal when no such version existed; when one did, the
      commit reports the clash and that version is left as it was, but
      permanente has already been replaced. No other version and nothing
      outside the context's path changes. */
  lemma CommitEffect(t: Tree, c: Context, ts: Stamp)
    requires Rooted(t) && CommitLayout(t, c) && WorkingDir(c) in t
    ensures var r := CommitResult(t, Some(c), ts);
      var name := VersionName(ts);
      var v := CommitVersions(c) + [name];
      && Rooted(r.1)
      && r.0 == (if v in t then VersionExists(name) else Committed(name))
      && Subtree(r.1, CommitBaseline(c)) == Subtree(t, WorkingDir(c))
      && Subtree(r.1, WorkingDir(c)) == Subtree(t, WorkingDir(c))
      && Subtree(r.1, v) == (if v in t then Subtree(t, v) else Subtree(t, WorkingDir(c)))
      && (forall n :: n != name ==> Subtree(r.1, CommitVersions(c) + [n]) == Subtree(t, CommitVersions(c) + [n]))
      && (forall x :: Other(x) ==> Subtree(r.1, c.path + [x]) == Subtree(t, c.path + [x]))
      && (forall b :: Disjoint(b, c.path) ==> Subtree(r.1, b) == Subtree(t, b))
  {
    var temp, perm, versions := WorkingDir(c), CommitBaseline(c), CommitVersions(c);
    var name := VersionName(ts);
    var v := versions + [name];
    var t3 := BaselineReplaced(t, c);
    BaselineReplacedEffect(t, c);
    ReplacedLayout(t, c, name);
    PresentIff(t3, v, t, v);
    if v !in t {
      SnapshotEffect(t3, c, name);
    }
  }

  /** The last commit step, copytree(permanente, versiones/<name>), onto an absent version. */
  lemma SnapshotEffect(t3: Tree, c: Context, name: string)
    requires Rooted(t3) && IsDir(t3, CommitBaseline(c)) && NoFileAlong(t3, CommitVersions(c))
    requires CommitVersions(c) + [name] !in t3
    ensures var v := CommitVersions(c) + [name];
      var g := Graft(AddDirs(t3, CommitVersions(c)), v, Subtree(t3, CommitBaseline(c)));
      && Rooted(g)
      && Subtree(g, v) == Subtree(t3, CommitBaseline(c))
      && Subtree(g, CommitBaseline(c)) == Subtree(t3, CommitBaseline(c))
      && Subtree(g, WorkingDir(c)) == Subtree(t3, WorkingDir(c))
      && (forall n :: n != name ==> Subtree(g, CommitVersions(c) + [n]) == Subtree(t3, CommitVersions(c) + [n]))
      && (forall x :: Other(x) ==> Subtree(g, c.path + [x]) == Subtree(t3, c.path + [x]))
      && (forall b :: Disjoint(b, c.path) ==> Subtree(g, b) == Subtree(t3, b))
  {
    var temp, perm, versions := WorkingDir(c), CommitBaseline(c), CommitVersions(c);
    var v := versions + [name];
    SiblingsDisjoint(c.path, "versiones", "permanente");
    DisjointExtend(versions, perm, [name]);
    assert Parent(v) == versions;
    CopyTreeEffect(t3, perm, v);
    SiblingsDisjoint(c.path, "versiones", "temporal");
    DisjointExtend(versions, temp, [name]);
    forall n | n != name ensures Disjoint(versions + [n], v) {
      SiblingsDisjoint(versions, name, n);
    }
    forall x | Other(x) ensures Disjoint(c.path + [x], v) {
      SiblingsDisjoint(c.path, x, "versiones");
      DisjointExtend(versions, c.path + [x], [name]);
    }
    forall b | Disjoint(b, c.path) ensures Disjoint(b, v) {
      DisjointExtend(c.path, b, ["versiones", name]);
      assert c.path + ["versiones", name] == v;
    }
  }

  /** Committing twice within one second: the second commit reports the
      clash instead of making a version. */
  lemma SameSecondClashes(t: Tree, c: Context, ts: Stamp)
    requires Rooted(t) && CommitLayout(t, c) && WorkingDir(c) in t
    requires CommitResult(t, Some(c), ts).0.Committed?
    ensures var after := CommitResult(t, Some(c), ts).1;
      CommitLayout(after, c) && CommitResult(after, Some(c), ts).0 == VersionExists(VersionName(ts))
  {
    var after := CommitResult(t, Some(c), ts).1;
    var v := CommitVersions(c) + [VersionName(ts)];
    CommitEffect(t, c, ts);
    CommittedLayout(t, after, c);
    PresentIff(after, v, t, WorkingDir(c));
    VersionsAlong(after, c, VersionName(ts));
    CommitEffect(after, c, ts);
  }

  /** Committing twice with no edits in between, at two different seconds,
      gives two versions under distinct names with the same contents: the
      working tree as it was. */
  lemma RepeatCommitSameContent(t: Tree, c: Context, first: Stamp, second: Stamp)
    requires Rooted(t) && CommitLayout(t, c) && WorkingDir(c) in t && first != second
    requires CommitResult(t, Some(c), first).0.Committed?
    ensures var once := CommitResult(t, Some(c), first).1;
      && CommitLayout(once, c)
      && (CommitResult(once, Some(c), second).0.Committed? ==>
            var twice := CommitResult(once, Some(c), second).1;
            && VersionName(first) != VersionName(second)
            && Subtree(twice, CommitVersions(c) + [VersionName(first)]) == Subtree(t, WorkingDir(c))
            && Subtree(twice, CommitVersions(c) + [VersionName(second)]) == Subtree(t, WorkingDir(c)))
  {
    var once := CommitResult(t, Some(c), first).1;
    var v1 := CommitVersions(c) + [VersionName(first)];
    CommitEffect(t, c, first);
    CommittedLayout(t, once, c);
    PresentIff(once, v1, t, WorkingDir(c));
    VersionsAlong(once, c, VersionName(first));
    DistinctStampsDistinctNames(first, second);
    CommitEffect(once, c, second);
  }

  lemma DistinctStampsDistinctNames(a: Stamp, b: Stamp)
    requires a != b
    ensures VersionName(a) != VersionName(b)
  {
    if a < b {
      VersionNamesOrdered(a, b);
    } else {
      VersionNamesOrdered(b, a);
    }
    LexLessIrreflexive(VersionName(a));
  }

  /** A disk on which permanente and temporal both hold the tree temporal
      held before is laid out for another commit or an update. */
  lemma CommittedLayout(t: Tree, after: Tree, c: Context)
    requires Rooted(t) && CommitLayout(t, c) && WorkingDir(c) in t && Rooted(after)
    requires Subtree(after, CommitBaseline(c)) == Subtree(t, WorkingDir(c))
    requires Subtree(after, WorkingDir(c)) == Subtree(t, WorkingDir(c))
    ensures IsDir(after, CommitBaseline(c)) && IsDir(after, WorkingDir(c))
    ensures NoFileAlong(after, c.path)
  {
    PresentIff(after, CommitBaseline(c), t, WorkingDir(c));
    PresentIff(after, WorkingDir(c), t, WorkingDir(c));
    AncestorsAreDirs(after, WorkingDir(c));
    assert forall i :: 0 <= i <= |c.path| ==> c.path[..i] == WorkingDir(c)[..i];
  }

  /** A stored version implies a versiones directory with only directories along it. */
  lemma VersionsAlong(t: Tree, c: Context, name: string)
    requires Rooted(t) && CommitVersions(c) + [name] in t
    ensures NoFileAlong(t, CommitVersions(c))
  {
    var v := CommitVersions(c) + [name];
    AncestorsAreDirs(t, v);
    assert forall i :: 0 <= i <= |CommitVersions(c)| ==> CommitVersions(c)[..i] == v[..i];
  }

  /** update and tree recovery: the destination becomes a copy of the
      source, and nothing beside the destination changes. */
  lemma ReplacedEffect(t: Tree, src: Path, dst: Path)
    requires Rooted(t) && dst != [] && IsDir(t, src) && !IsFile(t, dst) && Disjoint(src, dst)
    requires NoFileAlong(t, Parent(dst))
    ensures var after := Replaced(t, src, dst);
      && Rooted(after)
      && Subtree(after, dst) == Subtree(t, src)
      && forall b :: Disjoint(b, dst) ==> Subtree(after, b) == Subtree(t, b)
  {
    var t1 := if dst in t then Prune(t, dst) else t;
    if dst in t {
      RemoveTreeEffect(t, dst);
    }
    CopyTreeEffect(t1, src, dst);
  }

  /** update makes temporal a copy of the branch's permanente (discarding
      what temporal held) and changes nothing beside temporal. */
  lemma UpdateEffect(t: Tree, c: Context)
    requires Rooted(t) && UpdateLayout(t, c) && Baseline(c) in t
    ensures var r := UpdateResult(t, Some(c));
      && r.0 == Updated
      && Rooted(r.1)
      && Subtree(r.1, WorkingDir(c)) == Subtree(t, Baseline(c))
      && Subtree(r.1, Baseline(c)) == Subtree(t, Baseline(c))
      && forall b :: Disjoint(b, WorkingDir(c)) ==> Subtree(r.1, b) == Subtree(t, b)
  {
    assert Parent(WorkingDir(c)) == c.path;
    ReplacedEffect(t, Baseline(c), WorkingDir(c));
  }

  /** With the context's path at its own branch directory, update after a
      commit brings back exactly the tree that was committed. */
  lemma CommitThenUpdate(t: Tree, c: Context, ts: Stamp)
    requires c.path == BranchDir(c)
    requires Rooted(t) && CommitLayout(t, c) && WorkingDir(c) in t
    ensures var committed := CommitResult(t, Some(c), ts).1;
      && UpdateLayout(committed, c)
      && var r := UpdateResult(committed, Some(c));
      && r.0 == Updated
      && Subtree(r.1, WorkingDir(c)) == Subtree(t, WorkingDir(c))
      && Subtree(r.1, Baseline(c)) == Subtree(t, WorkingDir(c))
  {
    var committed := CommitResult(t, Some(c), ts).1;
    CommitEffect(t, c, ts);
    CommittedLayout(t, committed, c);
    SiblingsDisjoint(c.path, "permanente", "temporal");
    UpdateEffect(committed, c);
  }

  /** When the context's path lies outside its branch directory (as the
      menu sets it), a commit changes nothing that update, list_versions
      and recover read. */
  lemma CommitInvisibleToBranch(t: Tree, c: Context, ts: Stamp)
    requires Rooted(t) && (WorkingDir(c) in t ==> CommitLayout(t, c)) && Disjoint(c.path, BranchDir(c))
    ensures Subtree(CommitResult(t, Some(c), ts).1, BranchDir(c)) == Subtree(t, BranchDir(c))
  {
    if WorkingDir(c) in t {
      CommitEffect(t, c, ts);
    }
  }

  /** Whatever lies under another child of the context's path, such as a
      file create_file wrote or a branches directory, survives a commit. */
  lemma CommitKeepsOther(t: Tree, c: Context, ts: Stamp, x: string, r: Path)
    requires Rooted(t) && (WorkingDir(c) in t ==> CommitLayout(t, c)) && Other(x)
    ensures Subtree(CommitResult(t, Some(c), ts).1, c.path + [x] + r) == Subtree(t, c.path + [x] + r)
  {
    if WorkingDir(c) in t {
      var after := CommitResult(t, Some(c), ts).1;
      CommitEffect(t, c, ts);
      SubtreeOfSubtree(after, c.path + [x], r);
      SubtreeOfSubtree(t, c.path + [x], r);
    }
  }

  /** Recovering a whole version makes temporal a copy of it, so the files
      under temporal are exactly those list_files_in_version reports; nothing
      beside temporal changes. */
  lemma RecoverTreeEffect(t: Tree, c: Context, version: string, confirmed: bool)
    requires Rooted(t) && RecoverLayout(t, c, version, [], false)
    requires VersionDir(c, version) in t && (WorkingDir(c) in t ==> confirmed)
    ensures var r := RecoverTreeResult(t, c, version, confirmed);
      && r.0 == Recovered
      && Subtree(r.1, WorkingDir(c)) == Subtree(t, VersionDir(c, version))
      && (forall rel :: IsFile(r.1, WorkingDir(c) + rel) <==> IsFile(t, VersionDir(c, version) + rel))
      && forall b :: Disjoint(b, WorkingDir(c)) ==> Subtree(r.1, b) == Subtree(t, b)
  {
    var after := RecoverTreeResult(t, c, version, confirmed).1;
    var v, temp := VersionDir(c, version), WorkingDir(c);
    assert Parent(temp) == c.path;
    ReplacedEffect(t, v, temp);
    forall rel ensures IsFile(after, temp + rel) <==> IsFile(t, v + rel) {
      SubtreeAt(after, temp, rel);
      SubtreeAt(t, v, rel);
    }
  }

  /** Recovering one file puts the version's copy at the same relative
      path under temporal, or, when a directory stands there, inside that
      directory under the file's own name; missing parent directories are
      created and every other entry is kept. */
  lemma RecoverFileEffect(t: Tree, c: Context, version: string, rel: Path, overwrite: bool)
    requires RecoverLayout(t, c, version, rel, true)
    requires RecoverProceeds(t, c, version, rel, true, overwrite)
    ensures var r := RecoverFileResult(t, c, version, rel, overwrite);
      var src, dst := VersionDir(c, version) + rel, WorkingDir(c) + rel;
      var target := if IsDir(t, dst) then dst + [rel[|rel| - 1]] else dst;
      && r.0 == Recovered
      && IsFile(r.1, target) && r.1[target] == t[src]
      && (forall q :: q in t && q != target ==> q in r.1 && r.1[q] == t[q])
      && (forall q :: q in r.1 && q !in t ==> q == target || (IsDir(r.1, q) && q <= dst))
  {
    var dst := WorkingDir(c) + rel;
    forall q | q in Prefixes(Parent(dst)) ensures q <= dst {
      var i :| 0 <= i <= |Parent(dst)| && q == Parent(dst)[..i];
      assert q == dst[..i];
    }
  }

  /** Recovery onto something that exists asks first: declining changes nothing. */
  lemma RecoverAsksFirst(t: Tree, c: Context, version: string, rel: Path)
    requires VersionDir(c, version) in t
    ensures VersionDir(c, version) + rel in t && WorkingDir(c) + rel in t ==>
      RecoverFileResult(t, c, version, rel, false) == (Declined, t)
    ensures WorkingDir(c) in t ==> RecoverTreeResult(t, c, version, false) == (Declined, t)
  {
  }

  // ---------------------------------------------------------------- helpers

  lemma SiblingsDisjoint(base: Path, x: string, y: string)
    requires x != y
    ensures Disjoint(base + [x], base + [y])
  {
    assert (base + [x])[|base|] == x && (base + [y])[|base|] == y;
  }

  lemma DisjointExtend(a: Path, b: Path, r: Path)
    requires Disjoint(a, b)
    ensures Disjoint(a + r, b) && Disjoint(b, a + r)
  {
    assert a <= a + r;
    if b <= a + r {
      PrefixesComparable(a, b, a + r);
    }
  }

  /** Grafting at `dst` keeps the directories along a path that avoids it. */
  lemma KeepsDirs(t: Tree, dst: Path, s: Tree, p: Path)
    requires NoFileAlong(t, p) && Disjoint(dst, p)
    ensures NoFileAlong(Graft(t, dst, s), p)
  {
    forall i | 0 <= i <= |p| && p[..i] in Graft(t, dst, s) ensures Graft(t, dst, s)[p[..i]] == Dir {
      GraftAt(t, dst, s, p[..i]);
    }
  }

  /** rmtree keeps the directories it does not remove. */
  lemma PruneKeepsDirs(t: Tree, root: Path, p: Path)
    requires NoFileAlong(t, p)
    ensures NoFileAlong(Prune(t, root), p)
  {
  }

  lemma PrefixesShorter(p: Path, q: Path)
    requires |q| > |p|
    ensures q !in Prefixes(p)
  {
  }
}
