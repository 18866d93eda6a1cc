/** The user registry (users/user_manager.py): each operation loads the
    users document, changes one entry and saves it back, and may create a
    directory under repo_root. */
module UserRegistry {
  import opened Values
  import opened FileTree
  import opened Filesystem
  import opened Permissions

  const RepoRoot: string := "repo_root"

  /** repo_root/<user> */
  function UserDir(user: UserName): Path
  {
    [RepoRoot, user]
  }

  /** repo_root/<grantee>/shared_<owner>, made when `owner` grants `grantee`. */
  function SharedDir(owner: UserName, grantee: UserName): Path
  {
    [RepoRoot, grantee, "shared_" + owner]
  }

  /** UserManager.load_users: a document that does not parse reads as the
      empty table; a missing one is not caught (the constructor creates it). */
  function LoadTable(doc: Document<UsersTable>): (users: UsersTable)
    requires !doc.Missing?
    ensures doc.Malformed? ==> users == map[]
    ensures users == LoadUsers(doc)
  {
    if doc.Parsed? then doc.value else map[]
  }

  /** The table after create_user(user). */
  function WithUser(users: UsersTable, user: UserName): UsersTable
  {
    if user in users then users else users[user := UserRecord(map[])]
  }

  datatype GrantError = UnknownUser | InvalidLevel | StoredLevelIsText

  /** Python's `sub in s` on two strings. */
  predicate IsSubstring(sub: string, s: string)
  {
    sub <= s || (|s| > 0 && IsSubstring(sub, s[1..]))
  }

  /** The entry after `permisos_actuales.append(level)` unless already present:
      a list gains the level at its end; a text entry (which has no append)
      passes only when `level` already occurs in it as a substring. */
  function WithLevel(current: Grant, level: string): Option<Grant>
  {
    match current
    case Levels(names) => Some(if level in names then current else Levels(names + [level]))
    case Level(text) => if IsSubstring(level, text) then Some(current) else None
  }

  /** The table after assign_permission(owner, grantee, level), or why it was refused. */
  function Assigned(users: UsersTable, owner: UserName, grantee: UserName, level: string): Result<UsersTable, GrantError>
  {
    if owner !in users || grantee !in users then Err(UnknownUser)
    else if level !in ["read", "write"] then Err(InvalidLevel)
    else
      var grants := users[owner].permisos;
      var current := if grantee in grants then grants[grantee] else Levels([]);
      match WithLevel(current, level)
      case None => Err(StoredLevelIsText)
      case Some(g) => Ok(users[owner := UserRecord(grants[grantee := g])])
  }

  class UserManager {
    /** data/users.json */
    var doc: Document<UsersTable>

    ghost predicate Valid()
      reads this
    {
      !doc.Missing?
    }

    /** UserManager(): creates repo_root and an empty document if there is none. */
    constructor (disk: Disk, stored: Document<UsersTable>)
      requires disk.Valid() && NoFileAlong(disk.nodes, [RepoRoot])
      modifies disk
      ensures Valid() && disk.Valid()
      ensures doc == if stored.Missing? then Parsed(map[]) else stored
      ensures disk.nodes == AddDirs(old(disk.nodes), [RepoRoot])
    {
      disk.MakeDirs([RepoRoot]);
      doc := if stored.Missing? then Parsed(map[]) else stored;
    }

    /** load_users() */
    function Users(): UsersTable
      reads this
      requires Valid()
    {
      LoadTable(doc)
    }

    /** create_user(username) */
    method CreateUser(disk: Disk, username: UserName) returns (created: bool)
      requires Valid() && disk.Valid()
      requires username !in Users() ==> NoFileAlong(disk.nodes, UserDir(username))
      modifies this, disk
      ensures Valid() && disk.Valid()
      ensures created == (username !in old(Users()))
      ensures !created ==> doc == old(doc) && disk.nodes == old(disk.nodes)
      ensures created ==> doc == Parsed(WithUser(old(Users()), username))
      ensures created ==> disk.nodes == AddDirs(old(disk.nodes), UserDir(username))
    {
      var users := LoadTable(doc);
      if username in users {
        return false;
      }
      users := users[username := UserRecord(map[])];
      disk.MakeDirs(UserDir(username));
      doc := Parsed(users);
      return true;
    }

    /** assign_permission(from_user, to_user, permiso) */
    method AssignPermission(disk: Disk, owner: UserName, grantee: UserName, level: string)
      returns (result: Result<UsersTable, GrantError>)
      requires Valid() && disk.Valid()
      requires Assigned(Users(), owner, grantee, level).Ok? && owner != grantee ==>
                 NoFileAlong(disk.nodes, SharedDir(owner, grantee))
      modifies this, disk
      ensures Valid() && disk.Valid()
      ensures result == Assigned(old(Users()), owner, grantee, level)
      ensures doc == if result.Ok? then Parsed(result.value) else old(doc)
      ensures disk.nodes == if result.Ok? && owner != grantee
                            then AddDirs(old(disk.nodes), SharedDir(owner, grantee))
                            else old(disk.nodes)
    {
      var users := LoadTable(doc);
      if owner !in users || grantee !in users {
        return Err(UnknownUser);
      }
      if level !in ["read", "write"] {
        return Err(InvalidLevel);
      }
      var grants := users[owner].permisos;
      var current := if grantee in grants then grants[grantee] else Levels([]);
      var updated := WithLevel(current, level);
      if updated.None? {
        return Err(StoredLevelIsText);
      }
      users := users[owner := UserRecord(grants[grantee := updated.value])];
      doc := Parsed(users);
      if owner != grantee {
        disk.MakeDirs(SharedDir(owner, grantee));
      }
      return Ok(users);
    }
  }

  /** create_user adds exactly one entry, with no grants, and leaves every
      other user's record as it was; an existing name changes nothing. */
  lemma CreateUserAddsOne(users: UsersTable, user: UserName)
    ensures user in users ==> WithUser(users, user) == users
    ensures user !in users ==> WithUser(users, user).Keys == users.Keys + {user}
    ensures user !in users ==> WithUser(users, user)[user] == UserRecord(map[])
    ensures forall u :: u in users && u != user ==> WithUser(users, user)[u] == users[u]
  {
  }

  /** Unregistered users are reported before the level is looked at. */
  lemma GrantChecksUsersFirst(users: UsersTable, owner: UserName, grantee: UserName, level: string)
    requires owner !in users || grantee !in users
    ensures Assigned(users, owner, grantee, level) == Err(UnknownUser)
  {
  }

  /** Only "read" and "write" are accepted. */
  lemma GrantChecksLevel(users: UsersTable, owner: UserName, grantee: UserName, level: string)
    requires owner in users && grantee in users
    ensures Assigned(users, owner, grantee, level) == Err(InvalidLevel) <==> level != "read" && level != "write"
  {
  }

  /** A successful grant over a list entry (or none) appends the level to
      the stored list, or to an empty one, unless it is already there,
      keeping the earlier levels in order; nothing but that one entry
      changes. */
  lemma GrantRecordsLevel(users: UsersTable, owner: UserName, grantee: UserName, level: string)
    requires owner in users && grantee in users && level in ["read", "write"]
    requires grantee in users[owner].permisos ==> users[owner].permisos[grantee].Levels?
    ensures Assigned(users, owner, grantee, level).Ok?
    ensures var after := Assigned(users, owner, grantee, level).value;
      && after.Keys == users.Keys
      && after[owner].permisos.Keys == users[owner].permisos.Keys + {grantee}
      && var before := if grantee in users[owner].permisos then users[owner].permisos[grantee].names else [];
      && after[owner].permisos[grantee] == Levels(if level in before then before else before + [level])
      && level in after[owner].permisos[grantee].names
      && (forall u :: u in users && u != owner ==> after[u] == users[u])
      && (forall g :: g in users[owner].permisos && g != grantee ==>
            after[owner].permisos[g] == users[owner].permisos[g])
  {
  }

  predicate NoDuplicates(s: seq<string>)
  {
    forall i, j :: 0 <= i < j < |s| ==> s[i] != s[j]
  }

  /** Appending only a missing level keeps a duplicate-free list duplicate-free. */
  lemma WithLevelKeepsDistinct(names: seq<string>, level: string)
    requires NoDuplicates(names)
    ensures WithLevel(Levels(names), level).Some?
    ensures NoDuplicates(WithLevel(Levels(names), level).value.names)
  {
    if level !in names {
      var s := names + [level];
      forall i, j | 0 <= i < j < |s| ensures s[i] != s[j] {
        if j == |names| {
          assert s[i] == names[i];
        }
      }
    }
  }

  /** Granting the same level twice leaves the table as granting it once. */
  lemma {:induction false} GrantIdempotent(users: UsersTable, owner: UserName, grantee: UserName, level: string)
    requires Assigned(users, owner, grantee, level).Ok?
    ensures var once := Assigned(users, owner, grantee, level).value;
      Assigned(once, owner, grantee, level) == Ok(once)
  {
    var once := Assigned(users, owner, grantee, level).value;
    var grants := users[owner].permisos;
    var current := if grantee in grants then grants[grantee] else Levels([]);
    var g := WithLevel(current, level).value;
    assert once[owner].permisos[grantee] == g;
    match current
    case Levels(names) =>
      assert level in g.names;
      assert once[owner].permisos[grantee := g] == once[owner].permisos;
      assert once[owner := UserRecord(once[owner].permisos)] == once;
    case Level(text) =>
      assert g == current;
      assert once[owner].permisos[grantee := g] == once[owner].permisos;
      assert once[owner := UserRecord(once[owner].permisos)] == once;
  }

  /** The registry keeps every entry a list ... */
  lemma RegistryWritesLists(users: UsersTable, owner: UserName, grantee: UserName, level: string, user: UserName)
    requires OnlyLists(users)
    ensures OnlyLists(WithUser(users, user))
    ensures Assigned(users, owner, grantee, level).Ok? ==> OnlyLists(Assigned(users, owner, grantee, level).value)
  {
  }

  /** ... so no grant it records ever passes has_read_permission or
      has_write_permission for another user. */
  lemma {:induction false} GrantNeverHonoured(users: UsersTable, owner: UserName, grantee: UserName, level: string)
    requires OnlyLists(users) && owner != grantee
    requires Assigned(users, owner, grantee, level).Ok?
    ensures var after := Parsed(Assigned(users, owner, grantee, level).value);
      !HasReadPermission(after, grantee, owner) && !HasWritePermission(after, grantee, owner)
  {
    RegistryWritesLists(users, owner, grantee, level, owner);
    ListsGrantNothing(Assigned(users, owner, grantee, level).value, grantee, owner);
  }
}
