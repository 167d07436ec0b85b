/** Small failure-carrying datatypes shared by the model. */
module Results {

  datatype Option<T> = None | Some(value: T)

  /** The outcome of a step that either produces a value or stops with a message. */
  datatype Result<T, E> = Success(value: T) | Failure(error: E)
}

/**
  The static command table of the `ilo_manage` module: the two categories, the
  commands legal in each (in table order) and the command run when none is given.
 */
module Registry {
  import opened Results

  datatype Category = Systems | Manager

  /** The key under which a category appears in the command table. */
  function CategoryName(c: Category): string
  {
    match c
    case Systems => "Systems"
    case Manager => "Manager"
  }

  /** The table's keys in their declaration order; the category wildcard expands to this. */
  const CategoryKeys: seq<string> := ["Systems", "Manager"]

  /** Membership of a caller-supplied name in the table's keys. */
  function ParseCategory(name: string): (r: Option<Category>)
    ensures r.Some? ==> CategoryName(r.value) == name
    ensures r.None? <==> name !in CategoryKeys
  {
    if name == "Systems" then Some(Systems)
    else if name == "Manager" then Some(Manager)
    else None
  }

  /** The legal commands of a category, in table order. */
  function Commands(c: Category): (r: seq<string>)
  {
    match c
    case Systems => ["WaitforiLORebootCompletion", "CheckUserPrivileges"]
    case Manager => ["iLOFactoryReset", "DeleteiLOBackupFiles", "iLOBackup",
                     "iLORestore", "GetiLOBackupFiles", "GetHostName"]
  }

  /** The single command a category runs when the caller gives no command. */
  function DefaultCommand(c: Category): (r: string)
    ensures r in Commands(c)
  {
    match c
    case Systems => "WaitforiLORebootCompletion"
    case Manager => "GetiLOBackupFiles"
  }

  /** Each command is listed once in its category. */
  lemma CommandsDistinct(c: Category)
    ensures forall i, j :: 0 <= i < j < |Commands(c)| ==> Commands(c)[i] != Commands(c)[j]
  {
  }

  /** No command is legal in both categories. */
  lemma CommandsDisjoint(c: Category, d: Category, name: string)
    requires c != d && name in Commands(c)
    ensures name !in Commands(d)
  {
  }

  /** A category's key parses back to that category. */
  lemma CategoryRoundTrip(c: Category)
    ensures ParseCategory(CategoryName(c)) == Some(c)
  {
  }
}
