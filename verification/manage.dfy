/**
  The dispatcher of `ilo_manage`: for each category in turn it validates the
  category and its commands, resolves the category's resource, calls the
  handlers and records their replies; the reply of the last command run then
  decides between failing and exiting with the record.
 */
module Manage {
  import opened Results
  import opened Registry
  import opened Expand
  import opened Handlers
  import opened RequestPlan

  /**
    The `result` record: the resolver's `ret` and `msg`, plus one entry per
    command name holding that command's reply.
   */
  datatype Report = Report(ret: bool, msg: string, entries: map<string, Reply>)

  /** The message of a failed run: a plain text, or the whole record. */
  datatype FailMsg = Text(text: string) | Dump(report: Report)

  datatype Outcome = Fail(msg: FailMsg) | Exit(report: Report)

  /**
    The variables `result` and `command` that outlive the loop: unbound
    before the first category has dispatched anything.
   */
  datatype Cursor = Unbound | Bound(report: Report, command: string)

  datatype DispatchResult<S> = DispatchResult(report: Report, log: seq<Event>, state: S)

  /** The loop over categories either aborts with a message or leaves a cursor. */
  datatype LoopResult<S> = LoopResult(abort: Option<string>, cursor: Cursor, log: seq<Event>, state: S)

  datatype RunResult<S> = RunResult(outcome: Outcome, log: seq<Event>, state: S)

  predicate Consistent(c: Cursor)
  {
    c.Bound? ==> c.command in c.report.entries
  }

  predicate AllLegal(cat: Category, cmds: seq<string>)
  {
    forall k :: 0 <= k < |cmds| ==> cmds[k] in Commands(cat)
  }

  /** No resolver call in the log answered with `ret == false`. */
  predicate ResolversOk(log: seq<Event>)
  {
    forall i :: 0 <= i < |log| && !log[i].call.Invoke? ==> log[i].reply.ret
  }

  function StepOf(e: Event): Step
  {
    match e.call
    case FindSystemsResource => Resolve(Systems)
    case FindManagersResource => Resolve(Manager)
    case Invoke(op) => Execute(CommandName(op))
  }

  /** The observable steps of a log. */
  function Trace(log: seq<Event>): (r: seq<Step>)
  {
    seq(|log|, i requires 0 <= i < |log| => StepOf(log[i]))
  }

  /** The record a run ends with, when it ends with one. */
  function RecordOf(o: Outcome): Option<Report>
  {
    match o
    case Exit(rep) => Some(rep)
    case Fail(Dump(rep)) => Some(rep)
    case Fail(Text(_)) => None
  }

  /**
    The inner loop over one category's commands: each command with a branch
    calls its handler and stores the reply under the command's own name.
    Dispatch only calls handlers and never touches the resolver's fields.
   */
  function Dispatch<S>(cat: Category, cmds: seq<string>, report: Report, ctl: Controller<S>, s: S)
    : (r: DispatchResult<S>)
    ensures r.report.ret == report.ret && r.report.msg == report.msg
    ensures forall i :: 0 <= i < |r.log| ==> r.log[i].call.Invoke?
    decreases |cmds|
  {
    if cmds == [] then DispatchResult(report, [], s)
    else match Branch(cat, cmds[0])
      case None => Dispatch(cat, cmds[1..], report, ctl, s)
      case Some(op) =>
        var answer := ctl(Invoke(op), s);
        var rest := Dispatch(cat, cmds[1..], report.(entries := report.entries[cmds[0] := answer.0]), ctl, answer.1);
        DispatchResult(rest.report, [Event(Invoke(op), answer.0)] + rest.log, rest.state)
  }

  /** One turn of the inner loop for a command that has a branch. */
  lemma DispatchStep<S>(cat: Category, cmds: seq<string>, report: Report, ctl: Controller<S>, s: S)
    requires |cmds| > 0 && Branch(cat, cmds[0]).Some?
    ensures var op := Branch(cat, cmds[0]).value;
      var answer := ctl(Invoke(op), s);
      var rest := Dispatch(cat, cmds[1..], report.(entries := report.entries[cmds[0] := answer.0]), ctl, answer.1);
      Dispatch(cat, cmds, report, ctl, s) == DispatchResult(rest.report, [Event(Invoke(op), answer.0)] + rest.log, rest.state)
  {
  }

  /** One turn of the inner loop for a command without a branch: nothing happens. */
  lemma DispatchSkip<S>(cat: Category, cmds: seq<string>, report: Report, ctl: Controller<S>, s: S)
    requires |cmds| > 0 && Branch(cat, cmds[0]).None?
    ensures Dispatch(cat, cmds, report, ctl, s) == Dispatch(cat, cmds[1..], report, ctl, s)
  {
  }

  /**
    Dispatch adds exactly one entry per legal command, keyed by the command's
    own name, and leaves every entry of another name alone.
   */
  lemma {:induction false} DispatchEntries<S>(cat: Category, cmds: seq<string>, report: Report, ctl: Controller<S>, s: S)
    ensures var r := Dispatch(cat, cmds, report, ctl, s);
      forall c :: c in r.report.entries <==> c in report.entries || (c in cmds && c in Commands(cat))
    ensures var r := Dispatch(cat, cmds, report, ctl, s);
      forall c :: c in report.entries && c !in cmds ==> r.report.entries[c] == report.entries[c]
    decreases |cmds|
  {
    if cmds != [] {
      assert forall c :: c in cmds <==> c == cmds[0] || c in cmds[1..];
      match Branch(cat, cmds[0])
      case None =>
        DispatchSkip(cat, cmds, report, ctl, s);
        DispatchEntries(cat, cmds[1..], report, ctl, s);
      case Some(op) =>
        var answer := ctl(Invoke(op), s);
        DispatchStep(cat, cmds, report, ctl, s);
        DispatchEntries(cat, cmds[1..], report.(entries := report.entries[cmds[0] := answer.0]), ctl, answer.1);
    }
  }

  /** For a validated list, the handlers run are those named by the commands, in order. */
  lemma {:induction false} DispatchTrace<S>(cat: Category, cmds: seq<string>, report: Report, ctl: Controller<S>, s: S)
    requires AllLegal(cat, cmds)
    ensures Trace(Dispatch(cat, cmds, report, ctl, s).log) == ExecuteSteps(cmds)
    decreases |cmds|
  {
    if cmds != [] {
      var op := Branch(cat, cmds[0]).value;
      var answer := ctl(Invoke(op), s);
      var next := report.(entries := report.entries[cmds[0] := answer.0]);
      var rest := Dispatch(cat, cmds[1..], next, ctl, answer.1);
      DispatchStep(cat, cmds, report, ctl, s);
      DispatchTrace(cat, cmds[1..], next, ctl, answer.1);
      TraceCons(Event(Invoke(op), answer.0), rest.log);
      ExecuteStepsCons(cmds);
      assert StepOf(Event(Invoke(op), answer.0)) == Execute(cmds[0]);
    }
  }

  /** For a validated list, the last command's entry holds the reply of the last call made. */
  lemma {:induction false} DispatchLastEntry<S>(cat: Category, cmds: seq<string>, report: Report, ctl: Controller<S>, s: S)
    requires AllLegal(cat, cmds) && |cmds| > 0
    ensures var r := Dispatch(cat, cmds, report, ctl, s);
      && |r.log| > 0
      && cmds[|cmds| - 1] in r.report.entries
      && r.report.entries[cmds[|cmds| - 1]] == r.log[|r.log| - 1].reply
    decreases |cmds|
  {
    var op := Branch(cat, cmds[0]).value;
    var answer := ctl(Invoke(op), s);
    var next := report.(entries := report.entries[cmds[0] := answer.0]);
    var rest := Dispatch(cat, cmds[1..], next, ctl, answer.1);
    var r := Dispatch(cat, cmds, report, ctl, s);
    DispatchStep(cat, cmds, report, ctl, s);
    if |cmds| == 1 {
      assert rest == DispatchResult(next, [], answer.1);
    } else {
      DispatchLastEntry(cat, cmds[1..], next, ctl, answer.1);
      assert cmds[1..][|cmds| - 2] == cmds[|cmds| - 1];
    }
  }

  /**
    For a validated list, one handler call is made per command, and every
    command not repeated later in the list keeps, under its own name, the
    reply of its own call.
   */
  lemma {:induction false} DispatchReplies<S>(cat: Category, cmds: seq<string>, report: Report, ctl: Controller<S>, s: S)
    requires AllLegal(cat, cmds)
    ensures var r := Dispatch(cat, cmds, report, ctl, s);
      && |r.log| == |cmds|
      && forall k :: 0 <= k < |cmds| && cmds[k] !in cmds[k + 1..] ==>
           cmds[k] in r.report.entries && r.report.entries[cmds[k]] == r.log[k].reply
    decreases |cmds|
  {
    if cmds != [] {
      var op := Branch(cat, cmds[0]).value;
      var answer := ctl(Invoke(op), s);
      var next := report.(entries := report.entries[cmds[0] := answer.0]);
      var r := Dispatch(cat, cmds, report, ctl, s);
      var rest := Dispatch(cat, cmds[1..], next, ctl, answer.1);
      DispatchStep(cat, cmds, report, ctl, s);
      assert AllLegal(cat, cmds[1..]) by {
        forall k | 0 <= k < |cmds[1..]| ensures cmds[1..][k] in Commands(cat) {
          assert cmds[1..][k] == cmds[k + 1];
        }
      }
      DispatchReplies(cat, cmds[1..], next, ctl, answer.1);
      DispatchEntries(cat, cmds[1..], next, ctl, answer.1);
      forall k | 0 <= k < |cmds| && cmds[k] !in cmds[k + 1..]
        ensures cmds[k] in r.report.entries && r.report.entries[cmds[k]] == r.log[k].reply
      {
        if k > 0 {
          assert cmds[k] == cmds[1..][k - 1] && cmds[k + 1..] == cmds[1..][k..];
          assert r.log[k] == rest.log[k - 1];
        }
      }
    }
  }

  lemma TraceCons(e: Event, log: seq<Event>)
    ensures Trace([e] + log) == [StepOf(e)] + Trace(log)
  {
    assert ([e] + log)[1..] == log;
  }

  /**
    The loop over categories. Each category is checked and its command list
    built when the loop reaches it; a resolver answering `ret == false` stops
    the run. The record is rebuilt from the resolver's reply for every category.
   */
  function Loop<S>(names: seq<string>, cmds: seq<string>, cursor: Cursor, ctl: Controller<S>, s: S)
    : (r: LoopResult<S>)
    requires Consistent(cursor)
    ensures Consistent(r.cursor)
    ensures r.abort.None? && |names| > 0 ==> r.cursor.Bound?
    decreases |names|
  {
    if names == [] then LoopResult(None, cursor, [], s)
    else match ParseCategory(names[0])
      case None => LoopResult(Some(InvalidCategory(names[0])), cursor, [], s)
      case Some(cat) =>
        match CommandList(cat, cmds)
        case Failure(e) => LoopResult(Some(e), cursor, [], s)
        case Success(list) =>
          var found := ctl(ResolverOf(cat), s);
          var event := Event(ResolverOf(cat), found.0);
          if !found.0.ret then LoopResult(Some(found.0.msg), cursor, [event], found.1)
          else
            var d := Dispatch(cat, list, Report(found.0.ret, found.0.msg, map[]), ctl, found.1);
            DispatchLastEntry(cat, list, Report(found.0.ret, found.0.msg, map[]), ctl, found.1);
            var rest := Loop(names[1..], cmds, Bound(d.report, list[|list| - 1]), ctl, d.state);
            LoopResult(rest.abort, rest.cursor, [event] + d.log + rest.log, rest.state)
  }

  /**
    The run stopped on a resolver reply with `ret == false`, which is the last
    thing it did; every resolver before it succeeded.
   */
  predicate AbortedByResolver(log: seq<Event>, abort: Option<string>)
  {
    && |log| > 0
    && !log[|log| - 1].call.Invoke?
    && !log[|log| - 1].reply.ret
    && abort == Some(log[|log| - 1].reply.msg)
    && ResolversOk(log[..|log| - 1])
  }

  lemma {:induction false} TraceAppend(a: seq<Event>, b: seq<Event>)
    ensures Trace(a + b) == Trace(a) + Trace(b)
    decreases |a|
  {
    if a != [] {
      assert (a + b)[0] == a[0];
      assert (a + b)[1..] == a[1..] + b;
      TraceAppend(a[1..], b);
      assert Trace(a + b) == [StepOf(a[0])] + Trace(a[1..] + b);
      assert Trace(a) == [StepOf(a[0])] + Trace(a[1..]);
    } else {
      assert a + b == b;
    }
  }

  lemma ResolversOkAppend(a: seq<Event>, b: seq<Event>)
    ensures ResolversOk(a + b) <==> ResolversOk(a) && ResolversOk(b)
  {
    if ResolversOk(a) && ResolversOk(b) {
      forall i | 0 <= i < |a + b| && !(a + b)[i].call.Invoke?
        ensures (a + b)[i].reply.ret
      {
        if i >= |a| {
          assert (a + b)[i] == b[i - |a|];
        }
      }
    }
    if ResolversOk(a + b) {
      forall i | 0 <= i < |a| && !a[i].call.Invoke?
        ensures a[i].reply.ret
      {
        assert (a + b)[i] == a[i];
      }
      forall i | 0 <= i < |b| && !b[i].call.Invoke?
        ensures b[i].reply.ret
      {
        assert (a + b)[|a| + i] == b[i];
      }
    }
  }

  /**
    What a loop result does against a plan: its steps are always a prefix of
    the plan's. When every resolver succeeded it did all of the plan and
    stopped with the plan's validation error, if any. Otherwise the failing
    resolver is the last call made and its message is the one the loop
    stopped with.
   */
  predicate Follows<S>(r: LoopResult<S>, p: Plan)
  {
    && Trace(r.log) <= PlanSteps(p.batches)
    && (ResolversOk(r.log) ==> Trace(r.log) == PlanSteps(p.batches) && r.abort == p.error)
    && (!ResolversOk(r.log) ==> AbortedByResolver(r.log, r.abort))
  }

  lemma PrefixExtend(x: seq<Step>, y: seq<Step>, z: seq<Step>)
    requires y <= z
    ensures x + y <= x + z
  {
    assert (x + z)[..|x + y|] == x + y;
  }

  /**
    The interleaving theorem: validation happens category by category as the
    loop reaches it, yet the loop never does anything outside the plan, and a
    validation error stops it only after every earlier category has run.
   */
  lemma {:induction false} LoopFollowsPlan<S>(names: seq<string>, cmds: seq<string>, cursor: Cursor, ctl: Controller<S>, s: S)
    requires Consistent(cursor)
    ensures Follows(Loop(names, cmds, cursor, ctl, s), MakePlan(names, cmds))
    decreases |names|
  {
    if names != [] {
      match ParseCategory(names[0])
      case None =>
      case Some(cat) =>
        match CommandList(cat, cmds)
        case Failure(e) =>
        case Success(list) =>
          var found := ctl(ResolverOf(cat), s);
          if !found.0.ret {
            ResolverFailureFollowsPlan(names, cmds, cursor, ctl, s, cat, list);
          } else {
            var report := Report(found.0.ret, found.0.msg, map[]);
            var d := Dispatch(cat, list, report, ctl, found.1);
            LoopUnfold(names, cmds, cursor, ctl, s, cat, list);
            DispatchTrace(cat, list, report, ctl, found.1);
            var next := Bound(d.report, list[|list| - 1]);
            LoopFollowsPlan(names[1..], cmds, next, ctl, d.state);
            PlanUnfold(names, cmds, cat, list);
            ConcatFollows(cat, list, Event(ResolverOf(cat), found.0), d.log,
                          Loop(names[1..], cmds, next, ctl, d.state), Loop(names, cmds, cursor, ctl, s),
                          MakePlan(names[1..], cmds), MakePlan(names, cmds));
          }
    }
  }

  /** One turn of the loop over a category that validates and resolves. */
  lemma LoopUnfold<S>(names: seq<string>, cmds: seq<string>, cursor: Cursor, ctl: Controller<S>, s: S,
                      cat: Category, list: seq<string>)
    requires Consistent(cursor)
    requires |names| > 0 && ParseCategory(names[0]) == Some(cat) && CommandList(cat, cmds) == Success(list)
    requires ctl(ResolverOf(cat), s).0.ret
    ensures var found := ctl(ResolverOf(cat), s);
      var d := Dispatch(cat, list, Report(found.0.ret, found.0.msg, map[]), ctl, found.1);
      Consistent(Bound(d.report, list[|list| - 1]))
    ensures var found := ctl(ResolverOf(cat), s);
      var d := Dispatch(cat, list, Report(found.0.ret, found.0.msg, map[]), ctl, found.1);
      var tail := Loop(names[1..], cmds, Bound(d.report, list[|list| - 1]), ctl, d.state);
      var r := Loop(names, cmds, cursor, ctl, s);
      && r.log == [Event(ResolverOf(cat), found.0)] + d.log + tail.log
      && r.abort == tail.abort
      && r.cursor == tail.cursor
  {
    var found := ctl(ResolverOf(cat), s);
    DispatchLastEntry(cat, list, Report(found.0.ret, found.0.msg, map[]), ctl, found.1);
  }

  /** The plan for a list that starts with a validating category. */
  lemma PlanUnfold(names: seq<string>, cmds: seq<string>, cat: Category, list: seq<string>)
    requires |names| > 0 && ParseCategory(names[0]) == Some(cat) && CommandList(cat, cmds) == Success(list)
    ensures var rest := MakePlan(names[1..], cmds);
      && MakePlan(names, cmds) == Plan([Batch(cat, list)] + rest.batches, rest.error)
      && PlanSteps(MakePlan(names, cmds).batches) == [Resolve(cat)] + ExecuteSteps(list) + PlanSteps(rest.batches)
  {
    var rest := MakePlan(names[1..], cmds);
    var batches := [Batch(cat, list)] + rest.batches;
    assert batches[0] == Batch(cat, list) && batches[1..] == rest.batches;
  }

  lemma ResolverFailureFollowsPlan<S>(names: seq<string>, cmds: seq<string>, cursor: Cursor, ctl: Controller<S>, s: S,
                                      cat: Category, list: seq<string>)
    requires Consistent(cursor)
    requires |names| > 0 && ParseCategory(names[0]) == Some(cat) && CommandList(cat, cmds) == Success(list)
    requires !ctl(ResolverOf(cat), s).0.ret
    ensures Follows(Loop(names, cmds, cursor, ctl, s), MakePlan(names, cmds))
  {
    var found := ctl(ResolverOf(cat), s);
    PlanUnfold(names, cmds, cat, list);
    LoopStopsOnResolver(names, cmds, cursor, ctl, s, cat, list);
    ResolverStopFollows(cat, list, Event(ResolverOf(cat), found.0), Loop(names, cmds, cursor, ctl, s),
                        MakePlan(names, cmds), PlanSteps(MakePlan(names[1..], cmds).batches));
  }

  /** A loop result that stopped on its very first call, a failing resolver, follows the plan. */
  lemma ResolverStopFollows<S>(cat: Category, list: seq<string>, event: Event, r: LoopResult<S>,
                               p: Plan, later: seq<Step>)
    requires event.call == ResolverOf(cat) && !event.reply.ret
    requires r.log == [event] && r.abort == Some(event.reply.msg)
    requires PlanSteps(p.batches) == [Resolve(cat)] + ExecuteSteps(list) + later
    ensures Follows(r, p)
  {
    assert StepOf(event) == Resolve(cat);
    assert Trace(r.log) == [Resolve(cat)];
    assert PlanSteps(p.batches)[..1] == [Resolve(cat)];
    assert r.log[0] == event && !r.log[0].call.Invoke?;
  }

  /** A resolver answering `ret == false` stops the loop with its message, right after the call. */
  lemma LoopStopsOnResolver<S>(names: seq<string>, cmds: seq<string>, cursor: Cursor, ctl: Controller<S>, s: S,
                               cat: Category, list: seq<string>)
    requires Consistent(cursor)
    requires |names| > 0 && ParseCategory(names[0]) == Some(cat) && CommandList(cat, cmds) == Success(list)
    requires !ctl(ResolverOf(cat), s).0.ret
    ensures var found := ctl(ResolverOf(cat), s);
      Loop(names, cmds, cursor, ctl, s)
        == LoopResult(Some(found.0.msg), cursor, [Event(ResolverOf(cat), found.0)], found.1)
  {
  }

  lemma LastOfConcat<T>(a: seq<T>, b: seq<T>)
    requires |b| > 0
    ensures (a + b)[|a + b| - 1] == b[|b| - 1]
  {
  }

  /** Putting a resolver call and a dispatch in front of the rest of the loop keeps `Follows`. */
  lemma ConcatFollows<S>(cat: Category, list: seq<string>, event: Event, dlog: seq<Event>,
                         tail: LoopResult<S>, r: LoopResult<S>, rest: Plan, p: Plan)
    requires event.call == ResolverOf(cat) && event.reply.ret
    requires forall i :: 0 <= i < |dlog| ==> dlog[i].call.Invoke?
    requires Trace(dlog) == ExecuteSteps(list)
    requires r.log == [event] + dlog + tail.log && r.abort == tail.abort
    requires PlanSteps(p.batches) == [Resolve(cat)] + ExecuteSteps(list) + PlanSteps(rest.batches)
    requires p.error == rest.error
    requires Follows(tail, rest)
    ensures Follows(r, p)
  {
    var head := [Resolve(cat)] + ExecuteSteps(list);
    assert StepOf(event) == Resolve(cat);
    TraceAppend([event] + dlog, tail.log);
    TraceAppend([event], dlog);
    assert Trace([event]) == [Resolve(cat)];
    assert Trace(r.log) == head + Trace(tail.log);
    PrefixExtend(head, Trace(tail.log), PlanSteps(rest.batches));
    ResolversOkAppend([event] + dlog, tail.log);
    ResolversOkAppend([event], dlog);
    assert ResolversOk(dlog);
    assert ResolversOk([event]);
    if !ResolversOk(r.log) {
      LastOfConcat([event] + dlog, tail.log);
    }
  }

  /**
    `report` is the record one category's turn builds from `calls`, the
    resolver call followed by one handler call per command: the resolver's
    `ret` and `msg`, a key for exactly the batch's commands, and under each
    command not repeated later in the batch the reply of its own call.
   */
  predicate RecordsBatch(report: Report, last: Batch, calls: seq<Event>)
  {
    && |calls| == |last.commands| + 1
    && calls[0].call == ResolverOf(last.cat)
    && report.ret == calls[0].reply.ret
    && report.msg == calls[0].reply.msg
    && report.entries.Keys == (set c | c in last.commands)
    && forall k :: 0 <= k < |last.commands| && last.commands[k] !in last.commands[k + 1..] ==>
         report.entries[last.commands[k]] == calls[k + 1].reply
  }

  /**
    A loop result ends on the last command of `last`: the cursor names it,
    the record is the one the batch's own turn built from the calls that end
    the log, and the command's entry is the reply of the last call made,
    which is a handler call.
   */
  predicate EndsOn<S>(r: LoopResult<S>, last: Batch)
  {
    && |last.commands| > 0
    && r.cursor.Bound?
    && r.cursor.command == last.commands[|last.commands| - 1]
    && |r.log| > |last.commands|
    && RecordsBatch(r.cursor.report, last, r.log[|r.log| - |last.commands| - 1..])
    && r.log[|r.log| - 1].call.Invoke?
    && r.cursor.report.entries[r.cursor.command] == r.log[|r.log| - 1].reply
  }

  /** The batch the last name of a request stands for, when it validates. */
  function LastBatch(names: seq<string>, cmds: seq<string>): Option<Batch>
    requires |names| > 0
  {
    match ParseCategory(names[|names| - 1])
    case None => None
    case Some(c) =>
      match CommandList(c, cmds)
      case Failure(_) => None
      case Success(list) => Some(Batch(c, list))
  }

  /**
    When the loop completes without a stop, the last name validated and the
    loop ends on the last command of its batch: the record holds nothing
    from earlier categories.
   */
  lemma {:induction false} LoopEndsOnLastCommand<S>(names: seq<string>, cmds: seq<string>, cursor: Cursor, ctl: Controller<S>, s: S)
    requires Consistent(cursor) && |names| > 0
    requires Loop(names, cmds, cursor, ctl, s).abort.None?
    ensures LastBatch(names, cmds).Some?
    ensures EndsOn(Loop(names, cmds, cursor, ctl, s), LastBatch(names, cmds).value)
    decreases |names|
  {
    LoopHead(names, cmds, cursor, ctl, s);
    var cat := ParseCategory(names[0]).value;
    var list := CommandList(cat, cmds).value;
    var found := ctl(ResolverOf(cat), s);
    var d := Dispatch(cat, list, Report(found.0.ret, found.0.msg, map[]), ctl, found.1);
    LoopUnfold(names, cmds, cursor, ctl, s, cat, list);
    var next := Bound(d.report, list[|list| - 1]);
    if |names| == 1 {
      OnlyCategoryEndsOn(names, cmds, cursor, ctl, s, cat, list);
    } else {
      LoopEndsOnLastCommand(names[1..], cmds, next, ctl, d.state);
      LastBatchTail(names, cmds);
      PrependEndsOn([Event(ResolverOf(cat), found.0)] + d.log, Loop(names[1..], cmds, next, ctl, d.state),
                    Loop(names, cmds, cursor, ctl, s), LastBatch(names, cmds).value);
    }
  }

  lemma LastBatchTail(names: seq<string>, cmds: seq<string>)
    requires |names| > 1
    ensures LastBatch(names[1..], cmds) == LastBatch(names, cmds)
  {
    assert names[1..][|names| - 2] == names[|names| - 1];
  }

  /** A loop that completes got past its first category: it validated and its resolver succeeded. */
  lemma LoopHead<S>(names: seq<string>, cmds: seq<string>, cursor: Cursor, ctl: Controller<S>, s: S)
    requires Consistent(cursor) && |names| > 0
    requires Loop(names, cmds, cursor, ctl, s).abort.None?
    ensures ParseCategory(names[0]).Some?
    ensures CommandList(ParseCategory(names[0]).value, cmds).Success?
    ensures ctl(ResolverOf(ParseCategory(names[0]).value), s).0.ret
  {
  }

  /** Putting calls in front of a loop result that ends on a batch keeps it ending there. */
  lemma PrependEndsOn<S>(head: seq<Event>, tail: LoopResult<S>, r: LoopResult<S>, last: Batch)
    requires r.log == head + tail.log && r.cursor == tail.cursor
    requires EndsOn(tail, last)
    ensures EndsOn(r, last)
  {
    LastOfConcat(head, tail.log);
    SuffixOfConcat(head, tail.log, |last.commands| + 1);
  }

  lemma SuffixOfConcat<T>(a: seq<T>, b: seq<T>, m: nat)
    requires m <= |b|
    ensures (a + b)[|a + b| - m..] == b[|b| - m..]
  {
  }

  /** The base case: a single category leaves the cursor on its last command. */
  lemma OnlyCategoryEndsOn<S>(names: seq<string>, cmds: seq<string>, cursor: Cursor, ctl: Controller<S>, s: S,
                              cat: Category, list: seq<string>)
    requires Consistent(cursor)
    requires |names| == 1 && ParseCategory(names[0]) == Some(cat) && CommandList(cat, cmds) == Success(list)
    requires ctl(ResolverOf(cat), s).0.ret
    ensures EndsOn(Loop(names, cmds, cursor, ctl, s), Batch(cat, list))
  {
    var found := ctl(ResolverOf(cat), s);
    var d := Dispatch(cat, list, Report(found.0.ret, found.0.msg, map[]), ctl, found.1);
    var next := Bound(d.report, list[|list| - 1]);
    LoopUnfold(names, cmds, cursor, ctl, s, cat, list);
    DispatchRecordsBatch(cat, list, found, ctl);
    LoopDone(names[1..], cmds, next, ctl, d.state);
    LastTurnEndsOn(cat, list, Event(ResolverOf(cat), found.0), d, Loop(names[1..], cmds, next, ctl, d.state),
                   Loop(names, cmds, cursor, ctl, s));
  }

  /** The loop over no category does nothing. */
  lemma LoopDone<S>(names: seq<string>, cmds: seq<string>, cursor: Cursor, ctl: Controller<S>, s: S)
    requires Consistent(cursor) && |names| == 0
    ensures Loop(names, cmds, cursor, ctl, s) == LoopResult(None, cursor, [], s)
  {
  }

  /**
    A category's turn, its resolver having answered `found`, builds its
    record from its own resolver call and one handler call per command.
   */
  lemma DispatchRecordsBatch<S>(cat: Category, list: seq<string>, found: (Reply, S), ctl: Controller<S>)
    requires AllLegal(cat, list)
    ensures var d := Dispatch(cat, list, Report(found.0.ret, found.0.msg, map[]), ctl, found.1);
      && |d.log| == |list|
      && RecordsBatch(d.report, Batch(cat, list), [Event(ResolverOf(cat), found.0)] + d.log)
  {
    var report := Report(found.0.ret, found.0.msg, map[]);
    DispatchReplies(cat, list, report, ctl, found.1);
    DispatchEntries(cat, list, report, ctl, found.1);
    TurnRecordsBatch(cat, list, Event(ResolverOf(cat), found.0), Dispatch(cat, list, report, ctl, found.1));
  }

  /** The turn for the last category leaves the cursor on that category's last command. */
  lemma LastTurnEndsOn<S>(cat: Category, list: seq<string>, event: Event, d: DispatchResult<S>,
                          tail: LoopResult<S>, r: LoopResult<S>)
    requires |list| > 0 && |d.log| == |list|
    requires tail.log == [] && tail.cursor == Bound(d.report, list[|list| - 1])
    requires r.log == [event] + d.log + tail.log && r.cursor == tail.cursor
    requires forall i :: 0 <= i < |d.log| ==> d.log[i].call.Invoke?
    requires RecordsBatch(d.report, Batch(cat, list), [event] + d.log)
    ensures EndsOn(r, Batch(cat, list))
  {
    assert r.log == [event] + d.log;
    assert r.log[|r.log| - |list| - 1..] == r.log;
    assert list[|list|..] == [];
    assert r.log[|r.log| - 1] == d.log[|d.log| - 1];
  }

  /** One category's turn builds its record from its own resolver and handler calls. */
  lemma TurnRecordsBatch<S>(cat: Category, list: seq<string>, event: Event, d: DispatchResult<S>)
    requires |d.log| == |list|
    requires event.call == ResolverOf(cat)
    requires d.report.ret == event.reply.ret && d.report.msg == event.reply.msg
    requires forall c :: c in d.report.entries <==> c in list
    requires forall k :: 0 <= k < |list| && list[k] !in list[k + 1..] ==>
               list[k] in d.report.entries && d.report.entries[list[k]] == d.log[k].reply
    ensures RecordsBatch(d.report, Batch(cat, list), [event] + d.log)
  {
    assert d.report.entries.Keys == (set c | c in list);
    forall k | 0 <= k < |list|
      ensures ([event] + d.log)[k + 1] == d.log[k]
    {
    }
  }

  /** The closing check: the reply stored under the last command run decides. */
  function FinalCheck(c: Cursor): (o: Outcome)
    requires c.Bound? && Consistent(c)
    ensures RecordOf(o) == Some(c.report)
    ensures o.Exit? <==> c.report.entries[c.command].ret
  {
    if !c.report.entries[c.command].ret then Fail(Dump(c.report)) else Exit(c.report)
  }

  /**
    One invocation of the module. With no category at all the last command
    is never bound and the closing check cannot run, hence the precondition.
   */
  function Run<S>(categories: seq<string>, commands: seq<string>, ctl: Controller<S>, s: S)
    : (r: RunResult<S>)
    requires |categories| > 0
    ensures RecordOf(r.outcome).Some? ==>
              && |r.log| > 0
              && r.log[|r.log| - 1].call.Invoke?
              && (r.outcome.Exit? <==> r.log[|r.log| - 1].reply.ret)
  {
    var names := ExpandCategories(categories);
    LoopDecides(names, commands, ctl, s);
    Close(Loop(names, commands, Unbound, ctl, s))
  }

  /**
    A loop result whose cursor names the command of the last call made, a
    handler call.
   */
  predicate HandsOver<S>(l: LoopResult<S>)
  {
    && l.cursor.Bound?
    && Consistent(l.cursor)
    && |l.log| > 0
    && l.log[|l.log| - 1].call.Invoke?
    && l.cursor.report.entries[l.cursor.command] == l.log[|l.log| - 1].reply
  }

  /** The end of `main()`: a stopped loop fails with its message, otherwise the closing check runs. */
  function Close<S>(l: LoopResult<S>): (r: RunResult<S>)
    requires l.abort.None? ==> HandsOver(l)
    ensures r.log == l.log
    ensures RecordOf(r.outcome).Some? ==>
              && |r.log| > 0
              && r.log[|r.log| - 1].call.Invoke?
              && (r.outcome.Exit? <==> r.log[|r.log| - 1].reply.ret)
  {
    match l.abort
    case Some(m) => RunResult(Fail(Text(m)), l.log, l.state)
    case None => RunResult(FinalCheck(l.cursor), l.log, l.state)
  }

  /** A loop that completes hands the decision to the last command of its last batch. */
  lemma LoopDecides<S>(names: seq<string>, commands: seq<string>, ctl: Controller<S>, s: S)
    requires |names| > 0
    ensures var l := Loop(names, commands, Unbound, ctl, s);
      l.abort.None? ==> HandsOver(l)
  {
    if Loop(names, commands, Unbound, ctl, s).abort.None? {
      LoopEndsOnLastCommand(names, commands, Unbound, ctl, s);
    }
  }

  /** A run is its loop followed by the closing check, unless the loop stopped. */
  lemma RunUnfold<S>(categories: seq<string>, commands: seq<string>, ctl: Controller<S>, s: S)
    requires |categories| > 0
    ensures var l := Loop(ExpandCategories(categories), commands, Unbound, ctl, s);
      var r := Run(categories, commands, ctl, s);
      && r.log == l.log
      && (l.abort.Some? ==> r.outcome == Fail(Text(l.abort.value)))
  {
  }

  /**
    A run never calls anything outside the up-front plan of its expanded
    request, and calls it in plan order. With every resolver succeeding, a
    validation error ends the run with exactly that message after every
    earlier category has run in full. The first resolver answering
    `ret == false` ends the run with its message, and nothing is called
    after it.
   */
  lemma RunFollowsPlan<S>(categories: seq<string>, commands: seq<string>, ctl: Controller<S>, s: S)
    requires |categories| > 0
    ensures var r := Run(categories, commands, ctl, s);
      var p := MakePlan(ExpandCategories(categories), commands);
      && Trace(r.log) <= PlanSteps(p.batches)
      && (ResolversOk(r.log) && p.error.Some? ==>
            Trace(r.log) == PlanSteps(p.batches) && r.outcome == Fail(Text(p.error.value)))
      && (!ResolversOk(r.log) ==>
            && |r.log| > 0
            && !r.log[|r.log| - 1].call.Invoke?
            && !r.log[|r.log| - 1].reply.ret
            && ResolversOk(r.log[..|r.log| - 1])
            && r.outcome == Fail(Text(r.log[|r.log| - 1].reply.msg)))
  {
    LoopFollowsPlan(ExpandCategories(categories), commands, Unbound, ctl, s);
    RunUnfold(categories, commands, ctl, s);
  }

  /**
    A run decided by the last command of `last`: its last call is that
    command's handler, it exits exactly when the reply's `ret` is true, and
    it ends with the record the batch's own turn built from the calls that
    end the log, the last command's entry being that reply.
   */
  predicate DecidedBy<S>(r: RunResult<S>, last: Batch)
  {
    && |last.commands| > 0
    && |r.log| > |last.commands|
    && r.log[|r.log| - 1].call.Invoke?
    && (r.outcome.Exit? <==> r.log[|r.log| - 1].reply.ret)
    && RecordOf(r.outcome).Some?
    && RecordsBatch(RecordOf(r.outcome).value, last, r.log[|r.log| - |last.commands| - 1..])
    && RecordOf(r.outcome).value.entries[last.commands[|last.commands| - 1]] == r.log[|r.log| - 1].reply
  }

  /**
    With all of the request valid and every resolver succeeding, the run
    does the whole plan and is decided by the last command of the last
    batch alone, whatever earlier handlers answered.
   */
  lemma RunDecidedByLastCommand<S>(categories: seq<string>, commands: seq<string>, ctl: Controller<S>, s: S)
    requires |categories| > 0
    requires ResolversOk(Run(categories, commands, ctl, s).log)
    requires MakePlan(ExpandCategories(categories), commands).error.None?
    ensures var r := Run(categories, commands, ctl, s);
      var p := MakePlan(ExpandCategories(categories), commands);
      && Trace(r.log) == PlanSteps(p.batches)
      && |p.batches| > 0
      && DecidedBy(r, p.batches[|p.batches| - 1])
  {
    var names := ExpandCategories(categories);
    var l := Loop(names, commands, Unbound, ctl, s);
    LoopFollowsPlan(names, commands, Unbound, ctl, s);
    LoopEndsOnLastCommand(names, commands, Unbound, ctl, s);
    PlanEndsOnLastBatch(names, commands);
    ClosingCheckDecides(l, Run(categories, commands, ctl, s), LastBatch(names, commands).value);
  }

  /** A loop that ends on a batch hands the decision to that batch's last command. */
  lemma ClosingCheckDecides<S>(l: LoopResult<S>, r: RunResult<S>, last: Batch)
    requires l.abort.None? && Consistent(l.cursor) && EndsOn(l, last)
    requires r == RunResult(FinalCheck(l.cursor), l.log, l.state)
    ensures DecidedBy(r, last)
  {
  }

  /** A plan without error ends on the batch of the request's last name. */
  lemma PlanEndsOnLastBatch(names: seq<string>, cmds: seq<string>)
    requires |names| > 0 && MakePlan(names, cmds).error.None?
    ensures var p := MakePlan(names, cmds);
      |p.batches| > 0 && LastBatch(names, cmds) == Some(p.batches[|p.batches| - 1])
  {
    var p := MakePlan(names, cmds);
    var last := p.batches[|names| - 1];
    CategoryRoundTrip(last.cat);
  }
}
