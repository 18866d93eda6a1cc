# py-vcs core in Dafny

This project models the core of py-vcs, a small Python version-control tool
driven by an interactive menu. It covers the following parts:

- **Users and grants.** A JSON users document maps each user to the users
  they granted "read" or "write" (`users/user_manager.py`). Two checks read
  that document (`users/permissions.py`).
- **Projects.** A JSON index lists each owner's projects. Creating a
  project makes the directory skeleton
  `repo_root/<owner>/<project>/branches/main/{temporal,permanente}`
  (`projects/project_manager.py`).
- **The context record.** This is the JSON document `set_context` writes
  (`core/context_manager.py`).
- **The snapshot engine** (`core/version_control.py`):
  - `commit` replaces `permanente` with a copy of `temporal` and snapshots
    it as `versiones/v_<YYYYMMDDHHMMSS>`.
  - `update` replaces `temporal` with a copy of `permanente`.
  - `list_versions` lists the versions in name order.
  - `recover` restores one file or the whole version into `temporal`,
    asking before it overwrites.
  - `list_files_in_version` walks a version's files.
- **Single-file operations** on the working directory (`utils/file_ops.py`).
- **main.py's own decisions:**
  - option 4 resolves whose workspace the menu enters and at which path;
  - options 10 to 13 check a permission before each file action;
  - options 8 and 9 turn a typed number into a list entry.

The disk is one `Filesystem.Disk` object. Its field `nodes` maps paths
(sequences of segments) to `Dir` or `File(content)`. Its methods are the
operating-system calls the code makes, and they change the tree in place:
`os.makedirs`, `shutil.rmtree`, `shutil.copytree`, `open(..., "w")`,
`os.remove` and `shutil.copy2`. Each method's precondition excludes a
layout the model does not cover. Mostly these are layouts on which the call
raises, such as a plain file where a directory must be. For `copytree` they
also include a source and destination that overlap, which the model leaves
out even where Python would succeed. A failure the code reports or can
observe is an outcome, not a precondition: `copytree` onto an existing
destination, a missing file in `utils/file_ops.py`.

The operations of the snapshot engine demand a layout only on the paths
that reach an operating-system call. Returning early, when temporal,
permanente or the version is missing or the user declines, is open to
every disk.

The whole-directory effects are functions on trees in `FileTree`:

- `Prune` for rmtree;
- `Graft` and `AddDirs` for copytree and makedirs;
- `Subtree` for the tree found at a path.

Each state-changing method of the snapshot engine, the registries and the
file operations is proved to produce exactly the outcome and disk that a
specification function (`CommitResult`, `UpdateResult`,
`RecoverFileResult`, `Assigned`, and so on) computes from the old state.
Lemmas then prove what those functions promise:

- what is copied where;
- what is left untouched;
- the round trips;
- the permission consequences.

Several inputs become explicit parameters:

- The JSON documents are in-memory values of type
  `Document<T> = Missing | Malformed | Parsed(value)`.
- The commit time is a parameter, a 14-digit `Stamp`.
- The answer to an overwrite prompt is a boolean: `true` stands for an
  answer that lower-cases to `"s"`.
- The active context is an `Option<Context>`.

### Behaviour across files

The files do not agree with one another. The model keeps each file's own
behaviour and proves the consequences:

- **Grants are never honoured.** `assign_permission` stores a *list* of
  levels, but `has_read_permission` and `has_write_permission` compare the
  entry with the *strings* `"read"` and `"write"`. So no grant the program
  records ever gives access to another user
  (`UserRegistry.GrantNeverHonoured`). Yet option 4 admits any grantee,
  because it only asks whether an entry exists
  (`Menu.GrantAdmitsButGatesRefuse`).
- **The shared directory is never used.** A grant creates
  `repo_root/<grantee>/shared_<owner>`. Option 4 sends the grantee to
  `repo_root/<owner>/temp_<grantee>` instead (`Menu.SharedDirUnused`).
- **commit and the other operations use different directories.** `commit`
  works under the context's `path`. `update`, `list_versions`, `recover`
  and `list_files_in_version` read under
  `repo_root/<owner>/<project>/branches/<branch>`. With the path option 4
  stores, a commit changes nothing those operations read, whatever the
  project is called (`VersionControl.CommitInvisibleToBranch`,
  `VersionControl.CommitKeepsOther`, `Menu.MenuCommitInvisible`).
  Only when the path is the branch directory itself does update after
  commit restore the committed tree (`VersionControl.CommitThenUpdate`).
- **The working tree is nested twice.** Option 4 names a user's own
  workspace `repo_root/<user>/temporal`. `commit`, `update`, `recover`,
  `read_file`, `update_file` and `delete_file` then append another
  `temporal` to it (`Menu.OwnWorkingTreeNested`). `list_versions` and
  `list_files_in_version` do not use the path, and `create_file` writes
  directly under it.
- **create_file and read_file use different paths.** `create_file` writes
  `path/filename`, while `read_file`, `update_file` and `delete_file` use
  `path/temporal/filename`. So a created file is never the one read back
  (`FileOps.CreatedFileUnread`).
- **A same-second commit leaves a partial state.** Two commits within one
  second collide on `v_<timestamp>`. The second `copytree` raises, but only
  after `permanente` has been replaced (`VersionControl.CommitEffect`,
  `VersionControl.SameSecondClashes`).
- **Call sites that do not match their callees.** The model takes the
  callee as written in each case:
  - `ContextManager` has no `get_context`, which every version-control
    operation and every file action calls.
  - `set_context` takes a user name, but option 4 passes a whole record.
  - The record option 4 builds has no `proyecto` or `rama`, which the
    version-control operations read.
  - `update` takes no argument, but option 6 passes one.
  - `create_file` takes two arguments, but option 10 passes three.
  - Option 8 calls `recover(version, None)`. That is file mode with no
    relative path, which fails in `os.path.join`, so option 8 never
    restores a whole version.

### Further behaviour of the code

- A user may grant themselves a level. It is recorded, but no shared
  directory is made.
- `create_project` does not check that the owner is a registered user.
- `create_user` makes only `repo_root/<user>`, not a project skeleton.
- Option 4 asks only that an entry exists, not that it grants read.
- A second commit within the same second fails; nothing makes the
  version name distinct.
- `list_files_in_version` returns `os.walk` order; it does not sort.
- `recover` of one file onto a directory of the same name does not
  replace it: `shutil.copy2` writes the file inside that directory.
- There is no `revoke`, no `create_branch`, and commit and update do not
  re-check permissions.
- Only `users.json` tolerates a malformed document:
  - `permissions.load_users` turns any failure into `{}`;
  - `UserManager.load_users` turns only a parse error into `{}`;
  - the project and context documents are loaded without a guard.

## Model

| member | source | states |
|---|---|---|
| Permissions.LoadUsers | users/permissions.py:5-10 | a parsed document is used as it is; any failure to read or parse gives the empty table, so a non-empty table means the document parsed |
| Permissions.HasReadPermission | users/permissions.py:12-17 | holds for oneself; for another user only when the stored entry is exactly the string "read" or "write" |
| Permissions.HasWritePermission | users/permissions.py:19-24 | holds for oneself; for another user only when the stored entry is exactly the string "write" |
| Permissions.OwnerHasFullAccess | users/permissions.py:12-24 | a user always passes both checks on their own workspace, whatever the users document holds |
| Permissions.WriteImpliesRead | users/permissions.py:12-24 | write permission implies read permission |
| Permissions.CrossUserAccess | users/permissions.py:12-24 | between distinct users: read holds iff the entry is exactly the string "read" or "write"; write holds iff it is exactly "write"; "read" alone gives read without write; no entry, or a list entry, gives neither |
| Permissions.UnreadableGrantsNothing | users/permissions.py:5-10 | a missing or unparsable users document grants no cross-user access |
| Permissions.ListsGrantNothing | users/permissions.py:16-17 | when every entry is a list of levels, neither check passes between distinct users |
| UserRegistry.LoadTable | users/user_manager.py:27-33 | an existing document loads as `permissions.load_users` loads it: the parsed table, or the empty one on a parse error |
| UserRegistry.UserManager.constructor | users/user_manager.py:19-25 | repo_root exists afterwards; a missing users document becomes the empty table and an existing one is kept |
| UserRegistry.UserManager.CreateUser | users/user_manager.py:40-53 | creates exactly when the name is new: the table gains the user with no grants and repo_root/<user> is made; otherwise nothing changes |
| UserRegistry.UserManager.AssignPermission | users/user_manager.py:62-87 | the result is that of `Assigned`; the document is saved only on success; repo_root/<grantee>/shared_<owner> is made only on success between distinct users |
| UserRegistry.CreateUserAddsOne | users/user_manager.py:40-51 | an existing name leaves the table unchanged; a new one adds exactly that key with an empty grant map; every other record is kept |
| UserRegistry.GrantChecksUsersFirst | users/user_manager.py:65-68 | an unregistered owner or grantee is refused before the level is looked at |
| UserRegistry.GrantChecksLevel | users/user_manager.py:70-72 | for registered users, refusal for the level happens exactly when it is neither "read" nor "write" |
| UserRegistry.GrantRecordsLevel | users/user_manager.py:73-78 | over a list entry or none, the grant succeeds; the grantee's list becomes the stored one (or the empty one) with the level appended unless already present, earlier levels kept in order; only that entry of that owner changes |
| UserRegistry.WithLevelKeepsDistinct | users/user_manager.py:75-76 | appending only a missing level keeps a duplicate-free list duplicate-free |
| UserRegistry.GrantIdempotent | users/user_manager.py:73-78 | granting the same level again leaves the table as it is |
| UserRegistry.RegistryWritesLists | users/user_manager.py:46-77 | create_user and assign_permission keep every entry a list |
| UserRegistry.GrantNeverHonoured | users/user_manager.py:73-77 | after a successful grant to another user on a registry-written table, neither permission check passes for that grantee |
| ProjectRegistry.ProjectManager.constructor | projects/project_manager.py:8-12 | a missing index starts empty; an existing one is kept |
| ProjectRegistry.ProjectManager.CreateProject | projects/project_manager.py:22-36 | creates exactly when the project is not yet listed for the owner; the index becomes `WithProject`; on creation the disk gains the main branch's temporal and permanente directories with their parents |
| ProjectRegistry.ProjectManager.ListProjects | projects/project_manager.py:38-48 | an owner without an entry has no projects; otherwise the stored list, in order, whatever `silent` is |
| ProjectRegistry.ListBranches | projects/project_manager.py:50-55 | a name is listed iff it is a subdirectory of the project's branches directory |
| ProjectRegistry.CreateProjectAppends | projects/project_manager.py:22-36 | an existing project leaves the index unchanged; a new one goes at the end of its owner's list, registered user or not; no other owner's list changes |
| ProjectRegistry.SkeletonLayout | projects/project_manager.py:31-33 | after the skeleton is made, temporal and permanente are directories, "main" is a branch, and no versiones directory has appeared |
| ProjectRegistry.NoBranchesWithoutDir | projects/project_manager.py:52-54 | with no branches directory the list of branches is empty |
| ContextStore.ContextManager.constructor | core/context_manager.py:7-11 | a missing context document starts as the empty record; an existing one is kept |
| ContextStore.ContextManager.SetContext | core/context_manager.py:21-24 | the record becomes exactly {"usuario": name}, with earlier fields gone, and get_user then returns that name |
| ContextStore.ContextManager.GetUser | core/context_manager.py:26-28 | returns a user iff the record has "usuario", and then its value; the empty record gives none |
| FileOps.TempPath | utils/file_ops.py:3-4 | the path is base followed by exactly "temporal" and the file name |
| FileOps.ReadFile | utils/file_ops.py:16-23 | content iff a file is at base/temporal/name, and then its content; not found iff nothing is there |
| FileOps.CreateFile | utils/file_ops.py:6-13 | an existing path is reported and left alone; otherwise an empty file appears at path/filename when path is a directory, and nothing changes when it is not |
| FileOps.UpdateFile | utils/file_ops.py:25-29 | writes the content at base/temporal/name exactly when base/temporal is a directory and the target is not; otherwise nothing changes |
| FileOps.DeleteFile | utils/file_ops.py:31-37 | removes exactly that entry when it is a file; an absent one is reported; a directory is not removed |
| FileOps.CreatedFileUnread | utils/file_ops.py:6-17 | a file made by create_file never changes what read_file returns for the same base |
| FileOps.UpdateThenRead | utils/file_ops.py:16-29 | after update_file, read_file returns the written content and every other entry is unchanged |
| FileOps.DeleteThenRead | utils/file_ops.py:16-37 | after delete_file, read_file finds nothing |
| Filesystem.Disk.MakeDirs | core/version_control.py:36 | makedirs adds exactly the missing prefixes as directories, keeps the tree well formed, and leaves every prefix a directory |
| Filesystem.Disk.RemoveTree | core/version_control.py:35 | rmtree removes exactly the entries at or under the path |
| Filesystem.Disk.CopyTree | core/version_control.py:38 | copytree fails, changing nothing, iff the destination exists; otherwise it makes the destination's parents and places a copy of the source tree there |
| Filesystem.Disk.WriteFile | utils/file_ops.py:27-28 | open(p, "w") and a write succeed iff the parent is a directory and p is not; then p holds the content and nothing else changes; otherwise nothing changes |
| Filesystem.Disk.RemoveFile | utils/file_ops.py:34 | os.remove of a plain file removes exactly that entry |
| Filesystem.Disk.CopyFile | core/version_control.py:139-140 | copy2 writes the source file's content at the destination, or inside it under the source's name when the destination is a directory, and changes nothing else |
| FileTree.CopyTreeEffect | core/version_control.py:38 | after copytree onto an absent destination, the tree is well formed, the destination holds a copy of the source, and every tree beside the destination is unchanged |
| FileTree.RemoveTreeEffect | core/version_control.py:35 | after rmtree, the tree is well formed, nothing is at the path, and every tree beside it is unchanged |
| Names.Sort | core/version_control.py:93 | sorted() of the listed names: strictly ascending in Python string order, each name exactly once |
| Names.DigitsOrdered | core/version_control.py:40 | fixed-width zero-padded numerals compare as strings as their numbers compare |
| VersionControl.Commit | core/version_control.py:12-46 | the outcome and the disk are exactly those of `CommitResult`: no context or no temporal changes nothing, on any disk; otherwise permanente is replaced, versiones is made, and v_<ts> is created or reported as existing |
| VersionControl.CommitEffect | core/version_control.py:25-42 | permanente becomes a copy of temporal and temporal is kept, in every outcome; v_<ts> is a copy of temporal when new; when it existed, the clash is reported and that version is untouched; other versions, every other child of the context path (files create_file writes there) and everything outside the context path are unchanged |
| VersionControl.SnapshotEffect | core/version_control.py:40-42 | the snapshot copy holds permanente and disturbs neither permanente, temporal, the other versions, the context path's other children, nor anything outside the context path |
| VersionControl.BaselineReplacedEffect | core/version_control.py:34-38 | after rmtree, makedirs and copytree, permanente equals temporal; temporal, every version, the context path's other children and everything outside the context path are unchanged |
| VersionControl.CommitKeepsOther | core/version_control.py:25-42 | everything under a child of the context path other than temporal, permanente and versiones is unchanged by a commit, at any depth |
| VersionControl.SameSecondClashes | core/version_control.py:40-42 | a second commit with the same timestamp reports the clash instead of creating a version |
| VersionControl.RepeatCommitSameContent | core/version_control.py:34-42 | two commits at different times with no edits between give distinct version names with identical contents, the working tree |
| VersionControl.VersionName | core/version_control.py:40-41 | the version name is "v_" followed by exactly fourteen decimal digits |
| VersionControl.VersionNamesOrdered | core/version_control.py:40-41 | a later timestamp gives a version name that sorts later, so list_versions is oldest first |
| VersionControl.Update | core/version_control.py:48-75 | the outcome and the disk are exactly those of `UpdateResult`: no context or no baseline changes nothing, on any disk; otherwise temporal is replaced |
| VersionControl.UpdateEffect | core/version_control.py:61-72 | temporal becomes a copy of the branch's permanente; permanente and everything beside temporal are unchanged |
| VersionControl.ReplacedEffect | core/version_control.py:69-72 | rmtree-then-copytree leaves a well-formed tree with the destination equal to the source and everything beside the destination unchanged |
| VersionControl.CommitThenUpdate | core/version_control.py:12-75 | with the context path at its branch directory, update right after commit gives back exactly the committed temporal, and permanente holds it too |
| VersionControl.CommitInvisibleToBranch | core/version_control.py:23-42 | when the context path lies outside its branch directory, commit leaves the branch directory (baseline and versions) exactly as it was |
| VersionControl.ListVersions | core/version_control.py:77-101 | strictly ascending, and a name is listed iff it is an entry of the branch's versiones directory; nothing without a context |
| VersionControl.Recover | core/version_control.py:103-155 | no context changes nothing; file mode gives `RecoverFileResult`; whole-version mode gives `RecoverTreeResult`; a layout is demanded only when the copy is reached |
| VersionControl.RecoverFile | core/version_control.py:124-142 | the outcome and the disk are exactly those of `RecoverFileResult`: a missing version or file, or a declined prompt, changes nothing on any disk |
| VersionControl.RecoverTree | core/version_control.py:144-155 | the outcome and the disk are exactly those of `RecoverTreeResult`: a missing version or a declined prompt changes nothing on any disk |
| VersionControl.RecoverFileEffect | core/version_control.py:124-142 | the version's copy lands at temporal/<rel>, or inside it under the file's name when temporal/<rel> is a directory; every other entry is kept; the only new entries are that file and directories on its path |
| VersionControl.RecoverTreeEffect | core/version_control.py:144-155 | temporal becomes a copy of the version, so a relative path names a file under temporal iff it names one in the version; nothing beside temporal changes |
| VersionControl.RecoverAsksFirst | core/version_control.py:133-150 | declining the overwrite prompt, in either mode, reports it and changes nothing |
| VersionControl.ListFilesInVersion | core/version_control.py:157-178 | lists each relative path once, and a path is listed iff it names a regular file under the version; nothing without a context or version |
| Menu.ResolveContext | main.py:59-76 | on success the selection names the two users, with path repo_root/<user>/temporal for oneself and repo_root/<owner>/temp_<actor> otherwise |
| Menu.ResolveDecision | main.py:59-69 | refused as unknown iff either user is unregistered; admitted iff both are registered and it is oneself or the actor has any entry under the owner's permisos |
| Menu.GrantAdmitsButGatesRefuse | main.py:66-70 | after a grant on a registry-written table, option 4 admits the grantee, and all four file actions refuse them |
| Menu.SharedDirUnused | main.py:70 | the directory a grant creates and the path option 4 sends the grantee to lie apart |
| Menu.MenuCommitInvisible | main.py:63-70 | for every project, commit with the stored path never changes the branch directory that update, list_versions and recover read: the path lies outside it, or, for a project named like the path's last segment, the branch directory lies under the path's "branches" child |
| Menu.OwnWorkingTreeNested | main.py:64 | for a user's own workspace, the working tree and file paths are nested under temporal/temporal |
| Menu.Gate | main.py:119-173 | no context selected iff there is no context; an allowed action works on the context path, and the actor holds read permission, and write permission for create, edit and delete |
| Menu.GateDecision | main.py:119-173 | a file action passes iff read permission (view) or write permission (create, edit, delete) holds, and then uses the context path |
| Menu.OwnerPassesEveryGate | main.py:119-173 | every file action is open to the workspace's owner |
| Menu.ReaderOnlyViews | main.py:119-173 | a holder of the string "read" passes exactly the view gate |
| Menu.WriteGateImpliesReadGate | main.py:119-173 | whatever passes a write gate passes the view gate |
| Menu.SelectByIndex | main.py:92-93 | a selection is always an entry of the list; an empty list yields nothing |
| Menu.Numeral | main.py:108-109 | the printed number is a non-empty string of digits |
| Menu.NumeralValue | main.py:108-111 | int() of the printed number is the number |
| Menu.ShownNumberSelects | main.py:108-112 | typing the number printed beside an entry selects exactly that entry |
| Menu.OutOfRangeSelectsNothing | main.py:92-95 | zero, a number past the end, or anything not all digits selects nothing |

## Left out

- **Not modelled at all:**
  - the interactive menu loop, its printing and logging;
  - `list_users`, which only prints;
  - the creation of the `data` directory.
- **JSON documents are values, not files.** They are held in memory rather
  than stored in the modelled directory tree. Reading and writing them is
  not modelled.
- **os.path.join details are not modelled.** Paths are sequences of
  segments. Names containing a separator, absolute segments, `..` and
  empty segments are not modelled.
- **Timestamps.** `datetime.now()` is the `Stamp` parameter. Years before
  1000, which would not give 14 digits, are not modelled.
- **Metadata.** shutil.copy2 and copytree preserve metadata (times,
  modes); the model does not.
- **Layouts the model does not cover** are excluded by preconditions
  (`CommitLayout`, `UpdateLayout`, `RecoverLayout`, the requirements of the
  `Disk` methods), each demanded only where the call is reached. The
  excluded cases are:
  - a plain file where `makedirs`, `rmtree` or `copytree` needs a
    directory, which raises;
  - in file-mode `recover`, an empty relative path, a directory in the
    version, a directory where `copy2` would write, or a destination that
    is the source itself; all of these raise;
  - a plain file where `os.listdir` expects a directory: the branch's
    `versiones` for `list_versions` (`VersionControl.ListVersions`) and the
    project's `branches` for `list_branches` (`ProjectRegistry.ListBranches`);
    both raise NotADirectoryError;
  - overlapping source and destination for `copytree`: the version or
    permanente and temporal in `update` and whole-version `recover`.
    `copytree(src, src/new)` would succeed in Python, and a source under
    the destination makes `rmtree` remove the source first.
  The crash itself is not modelled.
- **The context is `Option<Context>`.** It holds a complete record or
  nothing. A record missing one of its keys, which raises `KeyError`, is
  not modelled.
- **Unguarded loads.** Corrupt `projects.json` and `context.json`
  documents are not modelled: the code loads both without a guard, so
  they raise. Likewise `Document.Missing` for the users document after
  the registry was constructed (`UserRegistry.LoadTable` requires it to
  exist).
- **User records** always have a `permisos` field. A record without one
  makes `assign_permission` raise `KeyError` and is not modelled.
- UserRegistry.Assigned: `StoredLevelIsText` stands for the
  `AttributeError` raised when a text entry is asked to append a level.
  Nothing has been saved at that point, so the model leaves the table
  unchanged.
- VersionControl.ListFilesInVersion: states membership and absence of
  duplicates, not the `os.walk` order.
- ProjectRegistry.ListBranches: returns a set. `os.listdir` order is
  unspecified.
- VersionControl.ListVersions: version names are single path segments. A
  name with a separator would not be listed by `os.listdir` anyway.
- Menu.IsDigits: accepts only ASCII digits. Python's `str.isdigit` also
  accepts other Unicode digits, on some of which `int()` then fails.
- Menu.ResolveContext: returns the selection. Storing it, which
  `set_context` cannot do as called, is not modelled.
