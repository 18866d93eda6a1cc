/** The decisions the interactive menu (main.py) takes itself: whose
    workspace option 4 opens and at which path, the permission check in
    front of the four file actions (options 10 to 13), and how a typed
    number picks an entry of a listed menu (options 8 and 9). */
module Menu {
  import opened Values
  import opened FileTree
  import opened Names
  import opened Permissions
  import opened UserRegistry
  import opened VersionControl
  import opened FileOps

  /** What option 4 hands to set_context: usuario_actual, usuario_proyecto, path. */
  datatype Selection = Selection(actor: UserName, owner: UserName, path: Path)

  datatype SelectError = NoSuchUser | NotPermitted

  /** repo_root/<actor>/temporal: a user's own workspace as option 4 names it. */
  function OwnPath(actor: UserName): Path { [RepoRoot, actor, "temporal"] }

  /** repo_root/<owner>/temp_<actor>: another user's workspace as option 4 names it. */
  function GuestPath(owner: UserName, actor: UserName): Path { [RepoRoot, owner, "temp_" + actor] }

  /** Option 4: both users must be registered; the owner's own workspace
      is always open to them, another user's only when the actor has an
      entry of any kind under the owner's permisos. */
  function ResolveContext(users: UsersTable, actor: UserName, owner: UserName): (r: Result<Selection, SelectError>)
    ensures r.Ok? ==> r.value.actor == actor && r.value.owner == owner
    ensures r.Ok? ==> r.value.path == (if actor == owner then OwnPath(actor) else GuestPath(owner, actor))
  {
    if actor !in users || owner !in users then Err(NoSuchUser)
    else if actor == owner then Ok(Selection(actor, owner, OwnPath(actor)))
    else if actor !in users[owner].permisos then Err(NotPermitted)
    else Ok(Selection(actor, owner, GuestPath(owner, actor)))
  }

  /** Who gets in: both registered, and either the same user or an entry,
      whatever its level, under the owner's permisos. */
  lemma ResolveDecision(users: UsersTable, actor: UserName, owner: UserName)
    ensures ResolveContext(users, actor, owner) == Err(NoSuchUser) <==> actor !in users || owner !in users
    ensures ResolveContext(users, actor, owner).Ok? <==>
      actor in users && owner in users && (actor == owner || actor in users[owner].permisos)
  {
  }

  /** A grant lets the grantee into the owner's workspace at option 4,
      while the permission checks of the file actions still refuse every
      one of them: the registry records a list, and the checks want a string. */
  lemma GrantAdmitsButGatesRefuse(users: UsersTable, owner: UserName, grantee: UserName, level: string)
    requires OnlyLists(users) && owner != grantee
    requires Assigned(users, owner, grantee, level).Ok?
    ensures var after := Assigned(users, owner, grantee, level).value;
      && ResolveContext(after, grantee, owner).Ok?
      && forall action :: Gate(Parsed(after), Some(ResolveContext(after, grantee, owner).value), action).Refused?
  {
    GrantNeverHonoured(users, owner, grantee, level);
  }

  /** The directory a grant creates is not the one option 4 then sends the grantee to. */
  lemma SharedDirUnused(owner: UserName, grantee: UserName)
    requires owner != grantee
    ensures Disjoint(SharedDir(owner, grantee), GuestPath(owner, grantee))
  {
    assert SharedDir(owner, grantee)[1] != GuestPath(owner, grantee)[1];
  }

  /** A commit made with the path option 4 stores changes nothing that
      update, list_versions and recover read, whatever the project is
      called. The path lies outside the branch directory; and when the
      project is named like the path's last segment, the branch directory
      lies under the path's "branches" child, which commit does not touch. */
  lemma MenuCommitInvisible(users: UsersTable, actor: UserName, owner: UserName,
                            project: string, branch: string, t: Tree, ts: Stamp)
    requires ResolveContext(users, actor, owner).Ok?
    ensures var c := Context(actor, owner, project, branch, ResolveContext(users, actor, owner).value.path);
      && (project != c.path[2] ==> Disjoint(c.path, BranchDir(c)))
      && (project == c.path[2] ==> BranchDir(c) == c.path + ["branches", branch])
      && (Rooted(t) && (WorkingDir(c) in t ==> CommitLayout(t, c)) ==>
            Subtree(CommitResult(t, Some(c), ts).1, BranchDir(c)) == Subtree(t, BranchDir(c)))
  {
    var c := Context(actor, owner, project, branch, ResolveContext(users, actor, owner).value.path);
    if project != c.path[2] {
      assert c.path[2] != BranchDir(c)[2];
      if Rooted(t) && (WorkingDir(c) in t ==> CommitLayout(t, c)) {
        CommitInvisibleToBranch(t, c, ts);
      }
    } else {
      assert BranchDir(c) == c.path + ["branches"] + [branch];
      if Rooted(t) && (WorkingDir(c) in t ==> CommitLayout(t, c)) {
        CommitKeepsOther(t, c, ts, "branches", [branch]);
      }
    }
  }

  /** The owner's own workspace, as option 4 names it, already ends in
      temporal, and both the version-control operations and the file
      actions append another temporal to it. */
  lemma OwnWorkingTreeNested(actor: UserName, project: string, branch: string, filename: string)
    ensures WorkingDir(Context(actor, actor, project, branch, OwnPath(actor))) ==
              [RepoRoot, actor, "temporal", "temporal"]
    ensures TempPath(OwnPath(actor), filename) == [RepoRoot, actor, "temporal", "temporal", filename]
  {
  }

  // ---------------------------------------------------------------- file actions

  /** Options 10 (create), 11 (view), 12 (edit) and 13 (delete). */
  datatype FileAction = Create | View | Edit | Delete

  datatype GateOutcome = NoContextSelected | Refused | Allowed(path: Path)

  /** The check in front of a file action: a context must be selected, and
      viewing needs read permission while the other three need write
      permission on the context's owner. */
  function Gate(doc: Document<UsersTable>, ctx: Option<Selection>, action: FileAction): (r: GateOutcome)
    ensures r == NoContextSelected <==> ctx.None?
    ensures r.Allowed? ==> r.path == ctx.value.path && HasReadPermission(doc, ctx.value.actor, ctx.value.owner)
    ensures r.Allowed? && action != View ==> HasWritePermission(doc, ctx.value.actor, ctx.value.owner)
  {
    if ctx.None? then NoContextSelected
    else
      var s := ctx.value;
      var ok := if action == View then HasReadPermission(doc, s.actor, s.owner)
                else HasWritePermission(doc, s.actor, s.owner);
      if ok then Allowed(s.path) else Refused
  }

  /** An action passes exactly when its permission holds, and then works on the context's path. */
  lemma GateDecision(doc: Document<UsersTable>, s: Selection, action: FileAction)
    ensures Gate(doc, Some(s), action).Allowed? <==>
      if action == View then HasReadPermission(doc, s.actor, s.owner)
      else HasWritePermission(doc, s.actor, s.owner)
    ensures Gate(doc, Some(s), action).Allowed? ==> Gate(doc, Some(s), action).path == s.path
  {
  }

  /** Every file action is open to the owner of the workspace. */
  lemma OwnerPassesEveryGate(doc: Document<UsersTable>, s: Selection, action: FileAction)
    requires s.actor == s.owner
    ensures Gate(doc, Some(s), action) == Allowed(s.path)
  {
    OwnerHasFullAccess(doc, s.actor);
  }

  /** A user holding the string "read" may view but not create, edit or delete. */
  lemma ReaderOnlyViews(doc: Document<UsersTable>, s: Selection, action: FileAction)
    requires s.actor != s.owner && EntryFor(doc, s.actor, s.owner) == Some(Level("read"))
    ensures Gate(doc, Some(s), action).Allowed? <==> action == View
  {
    CrossUserAccess(doc, s.actor, s.owner);
  }

  /** Whatever passes a write gate passes the read gate too. */
  lemma WriteGateImpliesReadGate(doc: Document<UsersTable>, ctx: Option<Selection>, action: FileAction)
    requires action != View && Gate(doc, ctx, action).Allowed?
    ensures Gate(doc, ctx, View) == Gate(doc, ctx, action)
  {
    WriteImpliesRead(doc, ctx.value.actor, ctx.value.owner);
  }

  // ---------------------------------------------------------------- numbered choices

  predicate IsDigit(ch: char) { '0' <= ch <= '9' }

  /** str.isdigit() on ASCII text: non-empty and digits only. */
  predicate IsDigits(s: string)
  {
    |s| > 0 && forall i :: 0 <= i < |s| ==> IsDigit(s[i])
  }

  /** int(s) for a string of decimal digits (leading zeros allowed). */
  function DecimalValue(s: string): nat
    requires forall i :: 0 <= i < |s| ==> IsDigit(s[i])
  {
    if |s| == 0 then 0
    else
      assert IsDigit(s[|s| - 1]);
      10 * DecimalValue(s[..|s| - 1]) + (s[|s| - 1] as int - '0' as int)
  }

  /** `index.isdigit() and 1 <= int(index) <= len(items)`, then items[int(index) - 1]. */
  function SelectByIndex<T>(input: string, items: seq<T>): (r: Option<T>)
    ensures r.Some? ==> r.value in items
    ensures |items| == 0 ==> r.None?
  {
    if IsDigits(input) && 1 <= DecimalValue(input) <= |items| then Some(items[DecimalValue(input) - 1])
    else None
  }

  /** str(n) for a natural number: the number the menu prints beside an entry. */
  function Numeral(n: nat): (s: string)
    ensures IsDigits(s)
  {
    if n < 10 then [DigitChar(n)] else Numeral(n / 10) + [DigitChar(n % 10)]
  }

  lemma {:induction false} NumeralValue(n: nat)
    ensures DecimalValue(Numeral(n)) == n
  {
    var s := Numeral(n);
    assert s[..|s| - 1] == if n < 10 then [] else Numeral(n / 10);
    if n >= 10 {
      NumeralValue(n / 10);
    }
  }

  /** Typing the number printed beside an entry picks that entry. */
  lemma ShownNumberSelects<T>(items: seq<T>, n: nat)
    requires 1 <= n <= |items|
    ensures SelectByIndex(Numeral(n), items) == Some(items[n - 1])
  {
    NumeralValue(n);
  }

  /** Zero, numbers past the end and anything that is not all digits select nothing. */
  lemma OutOfRangeSelectsNothing<T>(items: seq<T>, input: string)
    requires !IsDigits(input) || DecimalValue(input) == 0 || DecimalValue(input) > |items|
    ensures SelectByIndex(input, items).None?
  {
  }
}
