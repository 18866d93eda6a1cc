/** The users document (data/users.json) and the two access checks that
    read it (users/permissions.py). */
module Permissions {
  import opened Values

  type UserName = string

  /** What a grantee entry holds: the checks expect a single level string,
      while the registry writes a list of level strings. */
  datatype Grant = Level(name: string) | Levels(names: seq<string>)

  datatype UserRecord = UserRecord(permisos: map<UserName, Grant>)

  /** user name -> {"permisos": {grantee -> grant}} */
  type UsersTable = map<UserName, UserRecord>

  /** permissions.load_users: any failure to read or parse is the empty table. */
  function LoadUsers(doc: Document<UsersTable>): (users: UsersTable)
    ensures doc.Parsed? ==> users == doc.value
    ensures users != map[] ==> doc.Parsed?
  {
    if doc.Parsed? then doc.value else map[]
  }

  /** users.get(owner, {}).get("permisos", {}) */
  function GrantsOf(users: UsersTable, owner: UserName): map<UserName, Grant>
  {
    if owner in users then users[owner].permisos else map[]
  }

  /** has_read_permission(actor, owner) */
  predicate HasReadPermission(doc: Document<UsersTable>, actor: UserName, owner: UserName): (granted: bool)
    ensures actor == owner ==> granted
    ensures granted && actor != owner ==>
      EntryFor(doc, actor, owner) == Some(Level("read")) || EntryFor(doc, actor, owner) == Some(Level("write"))
  {
    actor == owner ||
    var grants := GrantsOf(LoadUsers(doc), owner);
    actor in grants && grants[actor] in {Level("read"), Level("write")}
  }

  /** has_write_permission(actor, owner) */
  predicate HasWritePermission(doc: Document<UsersTable>, actor: UserName, owner: UserName): (granted: bool)
    ensures actor == owner ==> granted
    ensures granted && actor != owner ==> EntryFor(doc, actor, owner) == Some(Level("write"))
  {
    actor == owner ||
    var grants := GrantsOf(LoadUsers(doc), owner);
    actor in grants && grants[actor] == Level("write")
  }

  /** The entry the checks look at, if any. */
  function EntryFor(doc: Document<UsersTable>, actor: UserName, owner: UserName): Option<Grant>
  {
    var grants := GrantsOf(LoadUsers(doc), owner);
    if actor in grants then Some(grants[actor]) else None
  }

  /** A user always reads and writes their own workspace, whatever the document holds. */
  lemma OwnerHasFullAccess(doc: Document<UsersTable>, user: UserName)
    ensures HasReadPermission(doc, user, user) && HasWritePermission(doc, user, user)
  {
  }

  /** Write access implies read access. */
  lemma WriteImpliesRead(doc: Document<UsersTable>, actor: UserName, owner: UserName)
    requires HasWritePermission(doc, actor, owner)
    ensures HasReadPermission(doc, actor, owner)
  {
  }

  /** Between distinct users, access is decided by the entry alone: read for
      exactly the strings "read" and "write", write for exactly "write". A
      missing owner record or grantee entry, any other string, and every
      list of levels grant nothing. */
  lemma CrossUserAccess(doc: Document<UsersTable>, actor: UserName, owner: UserName)
    requires actor != owner
    ensures HasReadPermission(doc, actor, owner) <==>
              EntryFor(doc, actor, owner) in {Some(Level("read")), Some(Level("write"))}
    ensures HasWritePermission(doc, actor, owner) <==> EntryFor(doc, actor, owner) == Some(Level("write"))
    ensures EntryFor(doc, actor, owner) == Some(Level("read")) ==>
              HasReadPermission(doc, actor, owner) && !HasWritePermission(doc, actor, owner)
    ensures EntryFor(doc, actor, owner).None? || EntryFor(doc, actor, owner).value.Levels? ==>
              !HasReadPermission(doc, actor, owner) && !HasWritePermission(doc, actor, owner)
  {
  }

  /** A missing or unreadable document grants no cross-user access. */
  lemma UnreadableGrantsNothing(doc: Document<UsersTable>, actor: UserName, owner: UserName)
    requires !doc.Parsed? && actor != owner
    ensures !HasReadPermission(doc, actor, owner) && !HasWritePermission(doc, actor, owner)
  {
  }

  /** Every entry is a list of levels, the only shape the registry writes. */
  ghost predicate OnlyLists(users: UsersTable)
  {
    forall owner, grantee :: owner in users && grantee in users[owner].permisos ==>
      users[owner].permisos[grantee].Levels?
  }

  /** So on any document the registry wrote, the checks grant nothing across users. */
  lemma ListsGrantNothing(users: UsersTable, actor: UserName, owner: UserName)
    requires OnlyLists(users) && actor != owner
    ensures !HasReadPermission(Parsed(users), actor, owner)
    ensures !HasWritePermission(Parsed(users), actor, owner)
  {
  }
}
