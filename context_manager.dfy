/** The persisted context record (core/context_manager.py): one JSON
    object in data/context.json that set_context replaces wholesale. */
module ContextStore {
  import opened Values

  type Record = map<string, string>

  class ContextManager {
    /** data/context.json */
    var record: Record

    /** ContextManager(): an empty record when no file exists yet; an
        existing file is kept as it is. */
    constructor (stored: Option<Record>)
      ensures stored.None? ==> record == map[]
      ensures stored.Some? ==> record == stored.value
    {
      record := stored.GetOr(map[]);
    }

    /** set_context(username): the record becomes {"usuario": username};
        every earlier field is gone. */
    method SetContext(username: string)
      modifies this
      ensures record == map["usuario" := username]
      ensures GetUser() == Some(username)
    {
      record := map["usuario" := username];
    }

    /** get_user(): context.get("usuario") */
    function GetUser(): (user: Option<string>)
      reads this
      ensures record == map[] ==> user == None
      ensures user.Some? <==> "usuario" in record
      ensures user.Some? ==> user.value == record["usuario"]
    {
      if "usuario" in record then Some(record["usuario"]) else None
    }
  }
}
