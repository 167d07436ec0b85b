/**
  A reference reading of the request: validate every category and command list
  up front, in order, and list the steps a run would take. The run itself
  interleaves validation with execution; `Manage.RunFollowsPlan` relates the two.
 */
module RequestPlan {
  import opened Results
  import opened Registry
  import opened Expand

  /** One category with the commands it will run. */
  datatype Batch = Batch(cat: Category, commands: seq<string>)

  /** The batches that validate, and the message of the first entry that does not. */
  datatype Plan = Plan(batches: seq<Batch>, error: Option<string>)

  /** An observable step of a run: resolving a category's resource, or running a command. */
  datatype Step = Resolve(cat: Category) | Execute(command: string)

  /** The validation message a category name draws, if any. */
  predicate Rejects(name: string, cmds: seq<string>, msg: string)
  {
    match ParseCategory(name)
    case None => msg == InvalidCategory(name)
    case Some(c) => CommandList(c, cmds) == Failure(msg)
  }

  /**
    Batches for the longest prefix of `names` that validates; the error, if
    any, belongs to the first name after that prefix.
   */
  function MakePlan(names: seq<string>, cmds: seq<string>): (p: Plan)
    ensures |p.batches| <= |names|
    ensures p.error.None? ==> |p.batches| == |names|
    ensures p.error.Some? ==> |p.batches| < |names| && Rejects(names[|p.batches|], cmds, p.error.value)
    ensures forall i :: 0 <= i < |p.batches| ==>
              && CategoryName(p.batches[i].cat) == names[i]
              && CommandList(p.batches[i].cat, cmds) == Success(p.batches[i].commands)
    decreases |names|
  {
    if names == [] then Plan([], None)
    else match ParseCategory(names[0])
      case None => Plan([], Some(InvalidCategory(names[0])))
      case Some(c) =>
        match CommandList(c, cmds)
        case Failure(e) => Plan([], Some(e))
        case Success(list) =>
          var rest := MakePlan(names[1..], cmds);
          assert forall i :: 0 <= i < |rest.batches| ==> names[1..][i] == names[i + 1];
          Plan([Batch(c, list)] + rest.batches, rest.error)
  }

  function ExecuteSteps(cmds: seq<string>): (r: seq<Step>)
    ensures |r| == |cmds|
    ensures forall k :: 0 <= k < |cmds| ==> r[k] == Execute(cmds[k])
  {
    seq(|cmds|, k requires 0 <= k < |cmds| => Execute(cmds[k]))
  }

  lemma ExecuteStepsCons(cmds: seq<string>)
    requires |cmds| > 0
    ensures ExecuteSteps(cmds) == [Execute(cmds[0])] + ExecuteSteps(cmds[1..])
  {
    assert ExecuteSteps(cmds)[1..] == ExecuteSteps(cmds[1..]);
  }

  /** The steps of a list of batches: each resolves its resource, then runs its commands. */
  function PlanSteps(batches: seq<Batch>): seq<Step>
    decreases |batches|
  {
    if batches == [] then []
    else [Resolve(batches[0].cat)] + ExecuteSteps(batches[0].commands) + PlanSteps(batches[1..])
  }

  /**
    With the wildcard among the categories, every other entry is ignored and
    the plan visits the table's categories in key order, Systems then Manager;
    only a command can then be rejected.
   */
  lemma CategoryWildcard(categories: seq<string>, cmds: seq<string>)
    requires Wildcard in categories
    ensures var p := MakePlan(ExpandCategories(categories), cmds);
      && (forall i :: 0 <= i < |p.batches| ==> p.batches[i].cat == [Systems, Manager][i])
      && (p.error.None? ==> |p.batches| == 2)
      && (p.error.Some? ==> exists x :: p.error.value == InvalidCommand(x))
  {
    var p := MakePlan(ExpandCategories(categories), cmds);
    if p.error.Some? {
      var name := CategoryKeys[|p.batches|];
      assert ParseCategory(name).Some?;
    }
  }

  /**
    Without the wildcard, the plan takes the caller's categories as given:
    same order, duplicates kept, up to the first one that is rejected.
   */
  lemma LiteralCategories(categories: seq<string>, cmds: seq<string>)
    requires Wildcard !in categories
    ensures var p := MakePlan(ExpandCategories(categories), cmds);
      && (forall i :: 0 <= i < |p.batches| ==> CategoryName(p.batches[i].cat) == categories[i])
      && (p.error.None? ==> |p.batches| == |categories|)
      && (p.error.Some? && ParseCategory(categories[|p.batches|]).None? ==>
            p.error.value == InvalidCategory(categories[|p.batches|]))
  {
  }

  /**
    With no command given, every category that validates runs exactly its
    one default command, and only an unknown category can be rejected.
   */
  lemma NoCommandsRunDefaults(names: seq<string>)
    ensures var p := MakePlan(names, []);
      && (forall i :: 0 <= i < |p.batches| ==>
            p.batches[i].commands == [DefaultCommand(p.batches[i].cat)]
            && DefaultCommand(p.batches[i].cat) in Commands(p.batches[i].cat))
      && (p.error.Some? ==> p.error.value == InvalidCategory(names[|p.batches|]))
  {
  }

  /**
    With the wildcard among the commands, each category runs all of its
    legal commands in table order; the other entries are never checked, so
    only an unknown category can be rejected.
   */
  lemma CommandWildcard(names: seq<string>, cmds: seq<string>)
    requires Wildcard in cmds
    ensures var p := MakePlan(names, cmds);
      && (forall i :: 0 <= i < |p.batches| ==> p.batches[i].commands == Commands(p.batches[i].cat))
      && (p.error.Some? ==> p.error.value == InvalidCategory(names[|p.batches|]))
  {
  }

  /**
    A literal command list is checked against each category's own legal
    list: a category accepts it unchanged when every entry is legal there,
    and otherwise rejects it naming the first entry that is not.
   */
  lemma LiteralCommands(names: seq<string>, cmds: seq<string>)
    requires |cmds| > 0 && Wildcard !in cmds
    ensures var p := MakePlan(names, cmds);
      && (forall i :: 0 <= i < |p.batches| ==> p.batches[i].commands == cmds)
      && (p.error.Some? && ParseCategory(names[|p.batches|]).Some? ==>
            var c := ParseCategory(names[|p.batches|]).value;
            exists k :: 0 <= k < |cmds| && cmds[k] !in Commands(c)
                        && (forall j :: 0 <= j < k ==> cmds[j] in Commands(c))
                        && p.error.value == InvalidCommand(cmds[k]))
  {
  }
}
