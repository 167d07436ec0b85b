/**
  Concrete requests of `ilo_manage` and what every controller, or one
  particular controller, makes of them.
 */
module Scenarios {
  import opened Results
  import opened Registry
  import opened Expand
  import opened Handlers
  import opened RequestPlan
  import opened Manage

  /**
    The default request (every category, no command) resolves each category
    and runs its default command, Systems first; when both resolvers succeed
    the record left at the end holds only the Manager default, and its reply
    decides the run.
   */
  lemma DefaultRequest<S>(ctl: Controller<S>, s: S)
    ensures var r := Run([Wildcard], [], ctl, s);
      var full := [Resolve(Systems), Execute("WaitforiLORebootCompletion"),
                   Resolve(Manager), Execute("GetiLOBackupFiles")];
      && Trace(r.log) <= full
      && (ResolversOk(r.log) ==>
            && Trace(r.log) == full
            && RecordOf(r.outcome).Some?
            && RecordOf(r.outcome).value.entries.Keys == {"GetiLOBackupFiles"}
            && (r.outcome.Exit? <==> r.log[3].reply.ret))
  {
    var r := Run([Wildcard], [], ctl, s);
    var p := MakePlan(ExpandCategories([Wildcard]), []);
    DefaultPlan();
    RunFollowsPlan([Wildcard], [], ctl, s);
    if ResolversOk(r.log) {
      RunDecidedByLastCommand([Wildcard], [], ctl, s);
    }
    DefaultOutcome(r, p);
  }

  /** What a run following the default plan ends with. */
  lemma DefaultOutcome<S>(r: RunResult<S>, p: Plan)
    requires p.batches == [Batch(Systems, ["WaitforiLORebootCompletion"]), Batch(Manager, ["GetiLOBackupFiles"])]
    requires PlanSteps(p.batches) == [Resolve(Systems), Execute("WaitforiLORebootCompletion"),
                                      Resolve(Manager), Execute("GetiLOBackupFiles")]
    requires Trace(r.log) <= PlanSteps(p.batches)
    requires ResolversOk(r.log) ==> Trace(r.log) == PlanSteps(p.batches) && DecidedBy(r, p.batches[|p.batches| - 1])
    ensures Trace(r.log) <= PlanSteps(p.batches)
    ensures ResolversOk(r.log) ==>
              && |r.log| == 4
              && RecordOf(r.outcome).Some?
              && RecordOf(r.outcome).value.entries.Keys == {"GetiLOBackupFiles"}
              && (r.outcome.Exit? <==> r.log[3].reply.ret)
  {
    if ResolversOk(r.log) {
      DecidedBySingle(r, p.batches[1], 4);
    }
  }

  /** A run of `n` calls decided by a batch of one command keeps only that command's entry. */
  lemma DecidedBySingle<S>(r: RunResult<S>, last: Batch, n: nat)
    requires |last.commands| == 1 && DecidedBy(r, last) && |Trace(r.log)| == n
    ensures |r.log| == n && n > 0
    ensures RecordOf(r.outcome).Some?
    ensures RecordOf(r.outcome).value.entries.Keys == {last.commands[0]}
    ensures r.outcome.Exit? <==> r.log[n - 1].reply.ret
  {
    assert (set c | c in last.commands) == {last.commands[0]};
  }

  /** The up-front plan of the default request. */
  lemma DefaultPlan()
    ensures var p := MakePlan(ExpandCategories([Wildcard]), []);
      && p.error.None?
      && p.batches == [Batch(Systems, ["WaitforiLORebootCompletion"]), Batch(Manager, ["GetiLOBackupFiles"])]
      && PlanSteps(p.batches) == [Resolve(Systems), Execute("WaitforiLORebootCompletion"),
                                  Resolve(Manager), Execute("GetiLOBackupFiles")]
  {
    var names := ExpandCategories([Wildcard]);
    var wait := ["WaitforiLORebootCompletion"];
    var listing := ["GetiLOBackupFiles"];
    assert names == ["Systems", "Manager"] && names[1..] == ["Manager"] && names[1..][1..] == [];
    PlanUnfold(names, [], Systems, wait);
    PlanUnfold(names[1..], [], Manager, listing);
    ExecuteStepsCons(wait);
    ExecuteStepsCons(listing);
  }

  /**
    A command is checked against the legal list of the category being run,
    not against the whole table: a Manager command given with Systems first
    stops the run before anything is called.
   */
  lemma CrossCategoryCommand<S>(rest: seq<string>, ctl: Controller<S>, s: S)
    ensures Run(["Systems"] + rest, ["GetHostName"], ctl, s)
            == RunResult(Fail(Text("Invalid Command: GetHostName")), [], s)
  {
    var names := ExpandCategories(["Systems"] + rest);
    assert names[0] == "Systems";
  }

  /**
    Validation is interleaved with execution: an unknown category named
    after a valid one is reported only once the valid one has run in full.
   */
  lemma LateInvalidCategory<S>(bad: string, ctl: Controller<S>, s: S)
    requires bad !in CategoryKeys && bad != Wildcard
    requires ctl(FindManagersResource, s).0.ret
    ensures var r := Run(["Manager", bad], ["GetHostName"], ctl, s);
      && Trace(r.log) == [Resolve(Manager), Execute("GetHostName")]
      && r.log[1].call == Invoke(GetHostname)
      && r.outcome == Fail(Text("Invalid Category: " + bad))
  {
    var p := MakePlan(["Manager", bad], ["GetHostName"]);
    assert MakePlan(["Manager", bad][1..], ["GetHostName"]) == Plan([], Some(InvalidCategory(bad)));
    assert p == Plan([Batch(Manager, ["GetHostName"])], Some(InvalidCategory(bad)));
    assert PlanSteps(p.batches) == [Resolve(Manager), Execute("GetHostName")];
    RunFollowsPlan(["Manager", bad], ["GetHostName"], ctl, s);
    var r := Run(["Manager", bad], ["GetHostName"], ctl, s);
    assert r.log[0].call == FindManagersResource && r.log[0].reply.ret;
  }

  /** A category named twice is run twice, in full each time. */
  lemma DuplicateCategory<S>(ctl: Controller<S>, s: S)
    ensures var r := Run(["Manager", "Manager"], ["GetHostName"], ctl, s);
      var full := [Resolve(Manager), Execute("GetHostName"), Resolve(Manager), Execute("GetHostName")];
      && Trace(r.log) <= full
      && (ResolversOk(r.log) ==> Trace(r.log) == full)
  {
    DuplicatePlan();
    RunFollowsPlan(["Manager", "Manager"], ["GetHostName"], ctl, s);
    if ResolversOk(Run(["Manager", "Manager"], ["GetHostName"], ctl, s).log) {
      RunDecidedByLastCommand(["Manager", "Manager"], ["GetHostName"], ctl, s);
    }
  }

  /** The up-front plan of a request naming Manager twice. */
  lemma DuplicatePlan()
    ensures var p := MakePlan(ExpandCategories(["Manager", "Manager"]), ["GetHostName"]);
      && p.error.None?
      && PlanSteps(p.batches) == [Resolve(Manager), Execute("GetHostName"),
                                  Resolve(Manager), Execute("GetHostName")]
  {
    var names := ExpandCategories(["Manager", "Manager"]);
    var hostname := ["GetHostName"];
    assert names == ["Manager", "Manager"] && names[1..] == ["Manager"] && names[1..][1..] == [];
    PlanUnfold(names, hostname, Manager, hostname);
    PlanUnfold(names[1..], hostname, Manager, hostname);
    ExecuteStepsCons(hostname);
  }

  /**
    A failing resolver ends the run at once with its own message, before any
    handler of its category is called.
   */
  lemma ResolverFailure<S>(ctl: Controller<S>, s: S)
    requires !ctl(FindSystemsResource, s).0.ret
    ensures var r := Run([Wildcard], [Wildcard], ctl, s);
      && r.log == [Event(FindSystemsResource, ctl(FindSystemsResource, s).0)]
      && r.outcome == Fail(Text(ctl(FindSystemsResource, s).0.msg))
  {
  }

  /**
    A controller on which only the reboot wait fails; it counts its calls so
    that the state visibly moves.
   */
  function RebootWaitFails(c: Call, calls: nat): (Reply, nat)
  {
    if c == Invoke(WaitForIloRebootCompletion) then (Reply(false, "timed out"), calls + 1)
    else (Reply(true, "done"), calls + 1)
  }

  /** A controller on which only the listing of backup files fails. */
  function BackupListingFails(c: Call, calls: nat): (Reply, nat)
  {
    if c == Invoke(GetIloBackupFiles) then (Reply(false, "no backups"), calls + 1)
    else (Reply(true, "done"), calls + 1)
  }

  /**
    A handler failure in an earlier category is not reported: the default
    request on a controller whose reboot wait fails still exits, and the
    failed reply is not even in the record it exits with.
   */
  lemma EarlierFailureIgnored()
    ensures Run([Wildcard], [], RebootWaitFails, 0)
            == RunResult(Exit(Report(true, "done", map["GetiLOBackupFiles" := Reply(true, "done")])),
                         [Event(FindSystemsResource, Reply(true, "done")),
                          Event(Invoke(WaitForIloRebootCompletion), Reply(false, "timed out")),
                          Event(FindManagersResource, Reply(true, "done")),
                          Event(Invoke(GetIloBackupFiles), Reply(true, "done"))],
                         4)
  {
  }

  /**
    A failure of the last command run fails the whole run, and the message
    is the record itself.
   */
  lemma LastFailureReported()
    ensures Run([Wildcard], [], BackupListingFails, 0).outcome
            == Fail(Dump(Report(true, "done", map["GetiLOBackupFiles" := Reply(false, "no backups")])))
  {
  }
}
