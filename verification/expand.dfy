/**
  Request expansion of `ilo_manage`: the category wildcard, and the per-category
  command list with its default, wildcard and validation cases.
 */
module Expand {
  import opened Results
  import opened Registry

  /** The entry that stands for "every category" or "every command". */
  const Wildcard: string := "all"

  function InvalidCategory(name: string): string
  {
    "Invalid Category: " + name
  }

  function InvalidCommand(name: string): string
  {
    "Invalid Command: " + name
  }

  /**
    The categories the run visits: the whole table in key order when the
    wildcard is present, otherwise the caller's list untouched.
   */
  function ExpandCategories(raw: seq<string>): (names: seq<string>)
    ensures |raw| > 0 ==> |names| > 0
    ensures forall i :: 0 <= i < |names| ==> names[i] in raw || ParseCategory(names[i]).Some?
  {
    if Wildcard in raw then CategoryKeys else raw
  }

  /** The position of the first entry of `cmds` that is not in `legal`, if any. */
  function FirstOutside(cmds: seq<string>, legal: seq<string>): (r: Option<nat>)
    ensures r.None? <==> forall k :: 0 <= k < |cmds| ==> cmds[k] in legal
    ensures r.Some? ==> r.value < |cmds| && cmds[r.value] !in legal
    ensures r.Some? ==> forall k :: 0 <= k < r.value ==> cmds[k] in legal
    decreases |cmds|
  {
    if cmds == [] then None
    else if cmds[0] !in legal then Some(0)
    else match FirstOutside(cmds[1..], legal)
      case None => None
      case Some(k) => Some(k + 1)
  }

  /**
    The commands one (already recognised) category runs, or the validation
    message that stops the run. Only literal lists are validated, each entry
    against this category's own legal list.
   */
  function CommandList(cat: Category, raw: seq<string>): (r: Result<seq<string>, string>)
    ensures r.Success? ==> |r.value| > 0
    ensures r.Success? ==> forall k :: 0 <= k < |r.value| ==> r.value[k] in Commands(cat)
    ensures |raw| == 0 ==> r == Success([DefaultCommand(cat)])
    ensures |raw| > 0 && Wildcard in raw ==> r == Success(Commands(cat))
    ensures |raw| > 0 && Wildcard !in raw && r.Success? ==> r.value == raw
    ensures r.Failure? <==>
              |raw| > 0 && Wildcard !in raw && exists k :: 0 <= k < |raw| && raw[k] !in Commands(cat)
    ensures r.Failure? ==>
              exists k :: 0 <= k < |raw| && raw[k] !in Commands(cat)
                          && (forall j :: 0 <= j < k ==> raw[j] in Commands(cat))
                          && r.error == InvalidCommand(raw[k])
  {
    if |raw| == 0 then Success([DefaultCommand(cat)])
    else if Wildcard in raw then Success(Commands(cat))
    else match FirstOutside(raw, Commands(cat))
      case Some(k) => Failure(InvalidCommand(raw[k]))
      case None => Success(raw)
  }
}
