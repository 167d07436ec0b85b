/**
  The boundary to the controller: the two resource resolvers and the eight
  command handlers, which are opaque here, and the string dispatch that picks a
  handler for a command inside a category.
 */
module Handlers {
  import opened Results
  import opened Registry

  /** The eight command handlers of the controller utility object. */
  datatype Operation =
    | WaitForIloRebootCompletion
    | CheckUserPrivileges
    | FactoryReset
    | GetIloBackupFiles
    | DeleteIloBackupFiles
    | IloBackup
    | IloRestore
    | GetHostname

  /** One call into the controller: a resource resolver or a command handler. */
  datatype Call = FindSystemsResource | FindManagersResource | Invoke(op: Operation)

  /** The `{ret, msg}` record every resolver and handler returns. */
  datatype Reply = Reply(ret: bool, msg: string)

  /** A call made during a run together with the reply it produced. */
  datatype Event = Event(call: Call, reply: Reply)

  /**
    The controller as an uninterpreted oracle: it answers a call in some
    controller state and moves to a next state, so repeated calls may differ.
   */
  type Controller<!S> = (Call, S) -> (Reply, S)

  /** The resolver that locates the resource a category's commands act on. */
  function ResolverOf(c: Category): (r: Call)
    ensures !r.Invoke?
  {
    match c
    case Systems => FindSystemsResource
    case Manager => FindManagersResource
  }

  /** The command string whose dispatch branch calls this handler. */
  function CommandName(op: Operation): string
  {
    match op
    case WaitForIloRebootCompletion => "WaitforiLORebootCompletion"
    case CheckUserPrivileges => "CheckUserPrivileges"
    case FactoryReset => "iLOFactoryReset"
    case GetIloBackupFiles => "GetiLOBackupFiles"
    case DeleteIloBackupFiles => "DeleteiLOBackupFiles"
    case IloBackup => "iLOBackup"
    case IloRestore => "iLORestore"
    case GetHostname => "GetHostName"
  }

  /**
    The `if command == ...` chain of one category. A command without a branch
    falls through and nothing is called. Every legal command of the category
    has a branch, no other command has one, and the branch calls the handler
    of that very name.
   */
  function Branch(cat: Category, cmd: string): (r: Option<Operation>)
    ensures r.Some? <==> cmd in Commands(cat)
    ensures r.Some? ==> CommandName(r.value) == cmd
  {
    match cat
    case Systems =>
      if cmd == "WaitforiLORebootCompletion" then Some(WaitForIloRebootCompletion)
      else if cmd == "CheckUserPrivileges" then Some(CheckUserPrivileges)
      else None
    case Manager =>
      if cmd == "iLOFactoryReset" then Some(FactoryReset)
      else if cmd == "GetiLOBackupFiles" then Some(GetIloBackupFiles)
      else if cmd == "DeleteiLOBackupFiles" then Some(DeleteIloBackupFiles)
      else if cmd == "iLOBackup" then Some(IloBackup)
      else if cmd == "iLORestore" then Some(IloRestore)
      else if cmd == "GetHostName" then Some(GetHostname)
      else None
  }
}
