/** Single-file operations against a working directory (utils/file_ops.py). */
module FileOps {
  import opened FileTree
  import opened Filesystem

  /** get_temp_path(base_path, filename): base/temporal/filename */
  function TempPath(base: Path, filename: string): (p: Path)
    ensures |p| == |base| + 2 && p[..|base|] == base
    ensures p[|base|] == "temporal" && p[|base| + 1] == filename
  {
    base + ["temporal", filename]
  }

  datatype ReadOutcome = Content(text: string) | NotFound | IsADirectory

  /** read_file(base_path, filename); a directory at that path makes open() raise. */
  function ReadFile(t: Tree, base: Path, filename: string): (r: ReadOutcome)
    ensures r.Content? <==> IsFile(t, TempPath(base, filename))
    ensures r.Content? ==> t[TempPath(base, filename)] == File(r.text)
    ensures r == NotFound <==> TempPath(base, filename) !in t
  {
    var p := TempPath(base, filename);
    if p !in t then NotFound
    else if t[p].File? then Content(t[p].content)
    else IsADirectory
  }

  datatype CreateOutcome = Created | AlreadyExists | NoSuchDirectory

  /** create_file(path, filename): an empty file at path/filename, directly
      under `path` rather than under its temporal folder. */
  method CreateFile(disk: Disk, path: Path, filename: string) returns (outcome: CreateOutcome)
    requires disk.Valid()
    modifies disk
    ensures disk.Valid()
    ensures outcome == if path + [filename] in old(disk.nodes) then AlreadyExists
                       else if IsDir(old(disk.nodes), path) then Created
                       else NoSuchDirectory
    ensures disk.nodes == if outcome == Created then old(disk.nodes)[path + [filename] := File("")]
                          else old(disk.nodes)
  {
    var p := path + [filename];
    if p in disk.nodes {
      return AlreadyExists;
    }
    assert Parent(p) == path;
    var ok := disk.WriteFile(p, "");
    outcome := if ok then Created else NoSuchDirectory;
  }

  /** update_file(base_path, filename, content): creates or overwrites
      base/temporal/filename; open() raises when base/temporal is missing
      or the path is a directory. */
  method UpdateFile(disk: Disk, base: Path, filename: string, content: string) returns (ok: bool)
    requires disk.Valid()
    modifies disk
    ensures disk.Valid()
    ensures ok == (IsDir(old(disk.nodes), base + ["temporal"]) && !IsDir(old(disk.nodes), TempPath(base, filename)))
    ensures disk.nodes == if ok then old(disk.nodes)[TempPath(base, filename) := File(content)] else old(disk.nodes)
  {
    assert Parent(TempPath(base, filename)) == base + ["temporal"];
    ok := disk.WriteFile(TempPath(base, filename), content);
  }

  datatype DeleteOutcome = Deleted | Absent | DirectoryNotRemoved

  /** delete_file(base_path, filename); os.remove raises on a directory. */
  method DeleteFile(disk: Disk, base: Path, filename: string) returns (outcome: DeleteOutcome)
    requires disk.Valid()
    modifies disk
    ensures disk.Valid()
    ensures outcome == if TempPath(base, filename) !in old(disk.nodes) then Absent
                       else if IsFile(old(disk.nodes), TempPath(base, filename)) then Deleted
                       else DirectoryNotRemoved
    ensures disk.nodes == if outcome == Deleted then old(disk.nodes) - {TempPath(base, filename)}
                          else old(disk.nodes)
  {
    var p := TempPath(base, filename);
    if p !in disk.nodes {
      return Absent;
    }
    if !disk.nodes[p].File? {
      return DirectoryNotRemoved;
    }
    disk.RemoveFile(p);
    return Deleted;
  }

  /** A file made by create_file is never what read_file finds for the same
      base: every read path is one segment deeper than every created one. */
  lemma CreatedFileUnread(t: Tree, path: Path, filename: string, name: string, content: string)
    ensures ReadFile(t[path + [filename] := File(content)], path, name) == ReadFile(t, path, name)
  {
    assert TempPath(path, name) != path + [filename];
  }

  /** After update_file succeeds, read_file returns what was written and
      every other path is as it was. */
  lemma UpdateThenRead(t: Tree, base: Path, filename: string, content: string)
    ensures ReadFile(t[TempPath(base, filename) := File(content)], base, filename) == Content(content)
    ensures forall q :: q != TempPath(base, filename) ==>
      (q in t[TempPath(base, filename) := File(content)] <==> q in t) &&
      (q in t ==> t[TempPath(base, filename) := File(content)][q] == t[q])
  {
  }

  /** After delete_file succeeds, read_file finds nothing. */
  lemma DeleteThenRead(t: Tree, base: Path, filename: string)
    ensures ReadFile(t - {TempPath(base, filename)}, base, filename) == NotFound
  {
  }
}
