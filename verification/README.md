# ilo_manage request dispatch in Dafny

This project models the request handling of the `ilo_manage` Ansible module
(`plugins/modules/ilo_manage.py`). That handling consists of four parts:

- the static command table: two categories, `Systems` and `Manager`, with the
  commands legal in each and one default command per category;
- the expansion of the caller's `category` and `command` lists, including the
  `"all"` wildcard and the defaulting of an empty command list;
- the loop over categories. For each category it validates the category and
  its command list, resolves the controller resource (the Redfish systems or
  managers resource), and calls one handler per command. The replies are
  recorded in the `result` record;
- the closing check. The reply stored under the last command run decides
  between `fail_json` and `exit_json`.

The resource resolvers and the eight command handlers are treated as an opaque
controller, `Handlers.Controller<S>`. It is a function from a call and a
controller state to a `{ret, msg}` reply and a next state. A run therefore
holds for every controller, and the same handler may answer differently on
different calls. Every run returns its log of calls and replies, so it is
observable which resolvers and handlers were called, and in what order.

Modules:

- `Results`: `Option` and `Result`.
- `Registry`: the command table (lines 154-158).
- `Expand`: the category wildcard and the per-category command list
  (lines 219-246).
- `Handlers`: the calls into the controller and the `if command == ...`
  dispatch chains (lines 249-277).
- `RequestPlan`: a reference reading of the request, which validates
  everything up front.
- `Manage`: the loop and the closing check. `Manage.Run` models `main()`
  from line 218 on.
- `Scenarios`: concrete requests.

## Model

`Manage.Run` carries the one-call promise of the closing check. Its relation
to the up-front plan `RequestPlan.MakePlan` is stated by
`Manage.RunFollowsPlan` and `Manage.RunDecidedByLastCommand`.

| member | source | states |
|---|---|---|
| Registry.ParseCategory | plugins/modules/ilo_manage.py:229 | a name is recognised as a category exactly when it is a key of the command table, and the category it is recognised as has that very key |
| Registry.CategoryRoundTrip | plugins/modules/ilo_manage.py:229 | a category's own key is recognised as that category, the converse of `ParseCategory` |
| Registry.CommandsDistinct | plugins/modules/ilo_manage.py:154-155 | the legal command list of each category names every command once |
| Registry.CommandsDisjoint | plugins/modules/ilo_manage.py:154-155 | no command is legal in both categories, so a command names its category |
| Registry.DefaultCommand | plugins/modules/ilo_manage.py:157-158 | the default command of a category is one of that category's legal commands |
| Expand.ExpandCategories | plugins/modules/ilo_manage.py:219-224 | a non-empty category request expands to a non-empty list, and each expanded entry is either one the caller gave or a key of the table |
| Expand.FirstOutside | plugins/modules/ilo_manage.py:240-243 | finds the first entry of a command list that is not legal: none exactly when every entry is legal, and otherwise an illegal entry with only legal entries before it |
| Expand.CommandList | plugins/modules/ilo_manage.py:229-243 | the commands a recognised category runs. No command gives the category's default, and `"all"` gives every legal command in table order. A literal list is run unchanged when all of it is legal. It is rejected exactly when it is literal and holds an entry that is not legal in this category, and the message names the first such entry. An accepted list is non-empty and legal |
| Handlers.ResolverOf | plugins/modules/ilo_manage.py:249-261 | each category is resolved by one of the two resource finders, never by a command handler |
| Handlers.Branch | plugins/modules/ilo_manage.py:254-277 | the dispatch chain of a category has a branch for a command exactly when the command is legal in that category, and that branch calls the handler of the same name |
| Manage.Dispatch | plugins/modules/ilo_manage.py:254-277 | running a category's commands calls only command handlers and leaves the resolver's `ret` and `msg` in the record untouched |
| Manage.DispatchEntries | plugins/modules/ilo_manage.py:254-277 | after a category's commands have run, the record's keys are the keys before plus exactly the legal commands, and every entry under another name is unchanged |
| Manage.DispatchTrace | plugins/modules/ilo_manage.py:254-277 | with every command legal, the handlers are called once per command, in list order, duplicates included |
| Manage.DispatchReplies | plugins/modules/ilo_manage.py:254-277 | with every command legal, one handler call is made per command, and each command not repeated later in the list holds, under its own name, the reply of its own call |
| Manage.DispatchLastEntry | plugins/modules/ilo_manage.py:254-277 | with every command legal, the entry left under the last command is the reply of the last handler call |
| Manage.Loop | plugins/modules/ilo_manage.py:226-277 | the loop over categories leaves the last command run bound to an entry of the record, and it is always bound when the loop completes over a non-empty list |
| Manage.LoopFollowsPlan | plugins/modules/ilo_manage.py:226-263 | the calls the loop makes are a prefix of the up-front plan's steps. With every resolver succeeding, a validation error stops it after the whole valid prefix has run, with that error. The first resolver that fails stops it immediately, with the resolver's message, and every resolver before it succeeded |
| Manage.LoopEndsOnLastCommand | plugins/modules/ilo_manage.py:226-277 | a loop that completes without a stop ends on the last command of the last category's batch. The record is that batch's own: its resolver's `ret` and `msg`, exactly its commands as keys, and under each command not repeated later the reply of its own handler call, taken from the calls that end the log. Nothing from earlier categories remains, and the last command's entry is the reply of the last call made, a handler call |
| Manage.FinalCheck | plugins/modules/ilo_manage.py:279-282 | the closing check ends with the record either way, and exits exactly when the entry of the last command run has `ret` true |
| Manage.Run | plugins/modules/ilo_manage.py:218-282 | a run that ends with the record, by exit or by a failure carrying the record, was decided by its last call, which is a handler call: it exits exactly when that reply's `ret` is true |
| Manage.RunFollowsPlan | plugins/modules/ilo_manage.py:219-263 | a run calls nothing outside the up-front plan of its expanded request, and calls it in plan order. With resolvers succeeding, an invalid entry fails the run with exactly the plan's message after all earlier categories ran. The first failing resolver is the last call, every resolver before it succeeded, and the run fails with its message, no handler being called after it |
| Manage.RunDecidedByLastCommand | plugins/modules/ilo_manage.py:226-282 | for a valid request with resolvers succeeding, the run performs the whole plan, and its last call is a handler. It exits exactly when that handler's reply has `ret` true, whatever earlier handlers answered. The record it ends with is the last batch's own: the `ret` and `msg` of that batch's resolver call, a key for exactly the batch's commands, and under each command not repeated later in the batch the reply of its own handler call |
| RequestPlan.MakePlan | plugins/modules/ilo_manage.py:226-246 | the reference plan validates categories in order. Each batch is the i-th name's category with its accepted command list. The error, if any, is the message the first rejected name draws |
| RequestPlan.CategoryWildcard | plugins/modules/ilo_manage.py:219-221 | with `"all"` among the categories, the plan visits Systems then Manager, whatever else was given, and can then only fail on a command |
| RequestPlan.LiteralCategories | plugins/modules/ilo_manage.py:222-224 | without the wildcard, the plan keeps the caller's categories in order, with duplicates, up to the first rejected one; an unknown one is rejected as an invalid category |
| RequestPlan.NoCommandsRunDefaults | plugins/modules/ilo_manage.py:230-232 | with no command given, every category runs exactly its default command, and only an unknown category is rejected |
| RequestPlan.CommandWildcard | plugins/modules/ilo_manage.py:233-235 | with `"all"` among the commands, every category runs all of its legal commands, and the other entries are never checked |
| RequestPlan.LiteralCommands | plugins/modules/ilo_manage.py:237-243 | a literal command list runs unchanged in every category that accepts it. A recognised category that rejects it names the first entry not legal in that category |
| Scenarios.DefaultPlan | plugins/modules/ilo_manage.py:219-232 | the default request plans the Systems default, then the Manager default |
| Scenarios.DefaultRequest | plugins/modules/ilo_manage.py:219-282 | on any controller the default request makes a prefix of: resolve Systems, wait for reboot, resolve Manager, list backup files. With resolvers succeeding it makes all four calls, and the record holds only the backup listing, whose reply decides |
| Scenarios.CrossCategoryCommand | plugins/modules/ilo_manage.py:240-243 | a Manager command requested with Systems first fails with `Invalid Command: GetHostName` before any call, although it is legal in Manager |
| Scenarios.LateInvalidCategory | plugins/modules/ilo_manage.py:226-246 | an unknown category after a valid one is reported only after the valid one has resolved and run its command |
| Scenarios.DuplicatePlan | plugins/modules/ilo_manage.py:222-238 | a request naming Manager twice plans the Manager batch twice |
| Scenarios.DuplicateCategory | plugins/modules/ilo_manage.py:226-277 | a category named twice is resolved and run twice |
| Scenarios.ResolverFailure | plugins/modules/ilo_manage.py:249-252 | a failing Systems resolver is the only call made, and the run fails with its message |
| Scenarios.EarlierFailureIgnored | plugins/modules/ilo_manage.py:279-282 | on a controller where only the reboot wait fails, the default request still exits, and the failed reply is not in the record |
| Scenarios.LastFailureReported | plugins/modules/ilo_manage.py:279-280 | on a controller where only the backup listing fails, the default request fails with the record, which holds that one failed entry |

## Behaviour worth knowing

- Validation is interleaved with execution (lines 226-277). `main()` does
  not validate every category and command before its first network call.
  Each category is validated only when the loop reaches it, after the
  earlier categories have resolved and run their commands.
  `RequestPlan.MakePlan` validates everything up front instead, and
  `Manage.RunFollowsPlan` states how far a run gets through that plan.
- The record is replaced by each category's resolver reply (lines 250 and
  261). The record a run ends with therefore holds only the last category's
  commands.
- Only the entry of the last command run is inspected (line 279). An earlier
  handler failure does not fail the run, as `Scenarios.EarlierFailureIgnored`
  shows.

## Left out

- Argument parsing by `AnsibleModule`, credentials, the certificate login
  and the `iLOOemUtils` construction (lines 172-216): these are I/O and
  configuration. The caller's `category` and `command` lists are the inputs.
- The import guard and `HAS_OEM_REDFISH` (lines 160-169, 206-207): a
  packaging concern.
- The bodies of the two resource resolvers and the eight handlers: these
  live in `ilo_oem_utils.py`, which is not part of this model. They are
  the opaque `Handlers.Controller<S>`.
- Handlers.Reply: keeps only the `ret` and `msg` keys of the dictionaries
  the resolvers and handlers return. Other keys a resolver adds to the
  record are not modelled.
- `to_native` and the contents of `msg`: messages are plain strings. A
  failure carrying the whole record is `Manage.FailMsg.Dump`.
- Manage.Run: requires a non-empty category list. With an empty
  list `main()` never binds `command`, and line 279 raises an error
  that is not modelled.
- The resolver check uses `is False` (line 251), while the closing check
  uses `not` (line 279). These differ only for non-boolean `ret` values,
  and `ret` is a `bool` here.
- Check mode: it is declared, but the code does not consult it.
- The documentation, examples and return-value strings.
