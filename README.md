# Workflow runner model

A model of the workflow runner of Data-Services-Tools and of the part of
its `DSConfig` configuration wrapper that the runner uses.

The runner executes a workflow: the numbered shell command directives of an
ini file (`1 = ls /`, `2 = echo "%%(cmd_1_output)s"`, ...; the
configuration parser turns `%%` into `%`, so the runner sees `%(cmd_1_output)s`). From a starting
number `S` it probes directives `S, S+1, ...` up to the first missing one.
When `S > 1` it puts the numbers listed in `always_run_cmds` first. It sorts
the list and then runs each command in turn:

- the directive is expanded with Python's `%` operator against the
  convenience variables, and `_PERC_` is turned into `%`;
- the command is echoed and run;
- it succeeds only when the exit code is 0 and stderr is empty;
- its stripped output becomes `%(cmd_N_output)s` for the commands after it.

The first failure ends the workflow. The runner then runs the optional
`premature_end_cmd` cleanup and exits with "Workflow ended prematurely,
#N command error: ...". The start-up reads:

- `max_num_chars_cmd_output`, the slice that caps what is echoed;
- `report_runtimes`, which switches the runtime tracker;
- the date variables;
- the mandatory `zk_queue_path`, which, when it is not empty, is polled with
  `zk qpoll`.

Modules, one per file:

| file | module | what it holds |
|---|---|---|
| `wrappers.dfy` | `Wrappers` | `Option` and `Result` |
| `text.dfy` | `Text` | Python's `strip`, `split(',')`, `replace`, `[0:n]` slices and `lower` on strings |
| `numbers.dfy` | `Numbers` | `str(n)` and Python 2 `int(s)` |
| `dsconfig.dfy` | `DSConfig` | `get` (plain and `'list'`), `has_option`, `_getList` |
| `template.dfy` | `Template` | `prepare_cmd`: the `%`-format grammar and the `_PERC_` restore |
| `runtime.dfy` | `Runtime` | the `WorkflowRuntime` class |
| `sequencer.dfy` | `Sequencer` | `get_workflow_cmd_num` |
| `engine.dfy` | `Engine` | `run_cmd`'s rule and the command loop, as the function `Run` and the method `RunCommands` |
| `engine_properties.dfy` | `EngineProperties` | what the loop guarantees |
| `transcript_properties.dfy` | `TranscriptProperties` | what the loop prints |
| `workflow.dfy` | `Workflow` | the script from start-up to exit, with `WorkflowException` |

Modelling choices:

- The executor, the clock and the date text are parameters.
  - The executor is a function from the command lines it has already seen,
    plus the next command line, to a `Reply` (stdout, stderr, exit code).
  - The clock is a function from the index of a reading to an integer time.
    Command `j` (counted from 0) starts at reading `2j+1` and ends at
    reading `2j+2`; reading 0 is the start of the workflow.
- Printed lines are values of `Engine.Line`. Every way the script ends is a
  value of `Workflow.Exit`.
- The model follows the code as written in these places:
  - The plan is not deduplicated as a whole. Only a probed number that is
    already listed is skipped, so a number that `always_run_cmds` repeats
    runs twice. The plan is strictly ascending only when `always_run_cmds`
    has no repeats (`Sequencer.PlanStrictlyAscending`).
  - A number in `always_run_cmds` that has no directive, and an entry that
    `int()` rejects, are exceptions nothing catches. They are not
    configuration messages (`Workflow.CrashReason`).
- The cleanup that the model's script runs is the corrected one described
  under "## Findings". As written, a failing or unexpandable
  `premature_end_cmd` replaces the exit; `Workflow.CleanupAsWritten` models
  that, and "## Left out" names the members that use the corrected cleanup.

## Model

| member | source | states |
|---|---|---|
| DSConfig.HasOptionDefaultSection | dslib/dsconfig.py:105-108 | `has_option` without a section is `has_option` on the application's section, and holds exactly when that section has the option |
| DSConfig.GetList | dslib/dsconfig.py:121-126 | `_getList` gives one element per comma plus one; each element is the matching comma-separated field, stripped, with no surrounding whitespace and no comma |
| DSConfig.GetListBlank | dslib/dsconfig.py:121-126 | a blank value gives `['']`, never an empty list |
| DSConfig.GetListJoin | dslib/dsconfig.py:121-126 | stripped, comma-free items come back unchanged from their comma-join (round trip) |
| DSConfig.Get | dslib/dsconfig.py:75-94 | `get` succeeds exactly when `has_option` holds; a missing option is `ConfigException`, a missing section stays the parser's error; the value is the raw string, or its `_getList` for `'list'` |
| DSConfig.GetAsListOfPlain | dslib/dsconfig.py:86-89 | `get(o, 'list')` is `_getList` applied to `get(o)`, and fails exactly when that does |
| Text.Strip | workflow_runner.py:58 | `strip()` leaves no whitespace at either end and never lengthens the text |
| Text.StripMargins | workflow_runner.py:58 | the stripped text is a contiguous piece of the input, with only whitespace cut off before and after it |
| Text.StripIdempotent | workflow_runner.py:58 | stripping twice is stripping once |
| Text.Split | dslib/dsconfig.py:126 | `split(',')` gives one more part than there are commas, none containing a comma |
| Text.JoinSplit | dslib/dsconfig.py:126 | joining the parts of a split with the separator restores the text |
| Text.SplitJoin | dslib/dsconfig.py:126 | splitting a join of separator-free parts restores the parts |
| Text.ReplaceLeavesNoToken | workflow_runner.py:66 | after `replace('_PERC_', '%')` no `_PERC_` is left in the text |
| Text.LowerMatches | workflow_runner.py:160 | `s.lower()` equals a lower-case word exactly when `s` spells that word with each letter in either case |
| Text.ReplaceAfterLiteral | workflow_runner.py:66 | `replace` copies text that holds no first character of the token, replaces the token after it, and goes on scanning the rest |
| Text.Slice | workflow_runner.py:196 | `s[0:n]` is a prefix of `s`: all of it for `None`, `min(n, len)` characters for `n >= 0`, `len + n` (at least 0) for negative `n` |
| Numbers.Digits | workflow_runner.py:81 | the digits of `str(n)` are decimal digits, with no leading zero |
| Numbers.ParseDecimal | workflow_runner.py:75-81 | `int(str(n)) == n`: a number written as a directive name reads back as itself |
| Numbers.DecimalInjective | workflow_runner.py:81 | different command numbers name different directives |
| Template.Format | workflow_runner.py:63 | a template with no `%` formats to itself; a `KeyError` names a variable that is not defined |
| Template.PrepareCmd | workflow_runner.py:60-66 | `prepare_cmd` fails exactly when the `%` substitution fails, with the same error; a result never contains `_PERC_`; text without `%` or `_PERC_` is returned unchanged |
| Template.FormatUnparse | workflow_runner.py:63 | formatting a template written out from literal text (with `%` doubled) and `%(name)s` references computes the reference meaning `Render` of those pieces |
| Template.RenderDefined | workflow_runner.py:63-65 | the pieces render exactly when every referenced name is defined; otherwise the error names the first undefined reference, as the left-to-right `%` scan raises `KeyError` for it |
| Template.PrepareCmdOfPieces | workflow_runner.py:60-66 | `prepare_cmd` on written-out pieces succeeds exactly when every referenced variable is defined, and then yields the substitution with `_PERC_` restored; otherwise it names the first missing variable |
| Template.PercentFreeTemplate | workflow_runner.py:60-66 | a template without `%` expands whatever the variables, and only has `_PERC_` turned into `%` |
| Template.EscapedPercent | workflow_runner.py:66 | for `%`-free `a` and `b`, with no `_` in `a`, `prepare_cmd` turns `a_PERC_b` into `a%` followed by `b` with its own tokens replaced: the scan goes on in `b`, which may hold more tokens |
| Template.DatePattern | workflow_runner.py:32 | the directive `date +_PERC_Y_PERC_m` runs as `date +%Y%m` |
| Template.PercentInValue | workflow_runner.py:63-66 | `%(name)s` with `name` defined expands to its value with every `_PERC_` in it turned into `%`, because the replacement runs after the substitution |
| Template.FormatEscape | workflow_runner.py:63 | `%%` formats to a literal `%`: escaped text formats back to the text, whatever follows it |
| Runtime.WorkflowRuntime.constructor | workflow_runner.py:97-99 | the tracker keeps the reporting flag and starts with no recorded events |
| Runtime.WorkflowRuntime.Track | workflow_runner.py:102-104 | `track` records or overwrites the event's start only when reporting is on, and changes nothing else |
| Runtime.WorkflowRuntime.Report | workflow_runner.py:105-109 | `report` gives the time since the event's recorded start, or `False` for an event never tracked; with reporting off that is every event |
| Runtime.TrackThenReport | workflow_runner.py:102-109 | tracking then reporting an event measures the time between the two readings, or gives nothing with reporting off; other events are untouched |
| Sequencer.HasCommandIsHasOption | workflow_runner.py:81 | the probe's test is `has_option(str(n))` on the application's section |
| Sequencer.ParseEachMeaning | workflow_runner.py:75 | a list comprehension over a parser that can raise succeeds exactly when every entry parses; it then holds the values in order, and otherwise names the first entry that fails |
| Sequencer.ParseAllMeaning | workflow_runner.py:75 | `[int(x) for x in ...]` succeeds exactly when every entry is an integer and holds them in order; otherwise the `ValueError` names the first bad entry |
| Sequencer.Overrides | workflow_runner.py:72-77 | `always_run_cmds` is read only when `S > 1`; then it is `[int(x) for x in get('always_run_cmds', 'list')]`, with `ValueError` naming the first bad entry; a missing directive gives the empty list, and a missing application section is an error exactly when `S > 1` |
| Sequencer.ProbeEnd | workflow_runner.py:79-87 | the probe stops at `K`, the first number `>= S` with no directive; every number from `S` to `K-1` has one |
| Sequencer.Probed | workflow_runner.py:79-84 | the probe appends exactly the numbers in `S .. K-1` that are not already listed |
| Sequencer.ProbedAscending | workflow_runner.py:79-84 | the probe appends in strictly ascending order |
| Sequencer.Insert | workflow_runner.py:92 | inserting into a sorted list keeps it sorted, adding exactly that element |
| Sequencer.Sort | workflow_runner.py:92 | `list.sort()` gives an ascending permutation of the list |
| Sequencer.Probe | workflow_runner.py:79-87 | the `while True` loop leaves the overrides followed by the probed numbers, up to `K` |
| Sequencer.Plan | workflow_runner.py:68-94 | `get_workflow_cmd_num` yields `PlanOf`: the overrides, then the probe, sorted, or the error |
| Sequencer.PlanContents | workflow_runner.py:72-92 | the plan is sorted and holds exactly the override numbers and `S .. K-1`; it is a permutation of the overrides followed by the probed numbers, so an override number occurs as often as `always_run_cmds` lists it; there is no plan ("No workflow commands found.") exactly when both are empty |
| Sequencer.PlanStrictlyAscending | workflow_runner.py:79-92 | with no repeated override the plan has no duplicates and is strictly ascending |
| Sequencer.PlanFromStart | workflow_runner.py:72-92 | from `S <= 1` the plan is exactly `S, ..., K-1` in order, or "No workflow commands found." when directive `S` is missing |
| Sequencer.PlanWithoutOverrides | workflow_runner.py:79-92 | with no overrides the plan is the probed range itself, in order |
| Engine.RunCmd | workflow_runner.py:51-58 | `run_cmd` returns exactly when the exit code is 0 and stderr is empty; it returns the stripped stdout, or raises carrying the reply |
| Engine.StepOfMeaning | workflow_runner.py:194-200 | a command reaches the executor exactly when its directive exists and expands; the line run is that expansion, free of `_PERC_`; a missing variable is reported as the expansion's error |
| Engine.Close | workflow_runner.py:212-216 | after the loop it prints the completion line, then the workflow's runtime when reporting |
| Engine.Execute | workflow_runner.py:194-205 | one command: read and expand the directive, echo `[0:n]` of it, time it, run it, and on success print `[0:n]` of its output and, when reporting, its runtime; only the command's timer changes |
| Engine.Advance | workflow_runner.py:192-210 | one pass of the loop body: stop with the loop's final result, or record `cmd_N_output` and move on to the next number |
| Engine.RunCommands | workflow_runner.py:190-216 | the loop's result is `Run`, and what it prints is the transcript of the commands run, plus the closing lines when all succeeded |
| EngineProperties.RunFollowsPlan | workflow_runner.py:192 | the commands run are a prefix of the plan, in plan order |
| EngineProperties.RunSteps | workflow_runner.py:192-210 | the `j`-th command run is plan entry `j`, expanded against the variables the commands before it left |
| EngineProperties.RunStopsAtFirstFailure | workflow_runner.py:192-207 | every command but the last run succeeded; the loop finishes exactly when all planned commands ran and succeeded; it ends in a failed command exactly when that failure is the one reported |
| EngineProperties.RunHaltsAtStep | workflow_runner.py:194-195 | a loop that neither finished nor ended in a failed command stopped at the next planned number, whose directive is missing or does not expand |
| EngineProperties.RunRecords | workflow_runner.py:209-210 | the variables after the loop are those the commands run recorded, in order |
| EngineProperties.OutputVarInjective | workflow_runner.py:210 | distinct command numbers write distinct `cmd_N_output` variables |
| EngineProperties.LastWrite | workflow_runner.py:210 | finds the last command run that wrote a given variable, or none |
| EngineProperties.RecordedLookup | workflow_runner.py:210 | a variable after the loop holds the stripped output of the last command that wrote it, or its value from before the loop |
| EngineProperties.RecordedOutput | workflow_runner.py:200-210 | `cmd_N_output` is the full stripped output of the last successful run of command `N` |
| TranscriptProperties.TranscriptEchoes | workflow_runner.py:196 | the transcript echoes each command run once, in order, as the `[0:n]` slice of its command line |
| TranscriptProperties.TranscriptOutputs | workflow_runner.py:200-203 | the transcript shows one output line for each command that succeeded, in order, and none for a failed one: the `[0:n]` slice of its stripped stdout |
| TranscriptProperties.CommandLines | workflow_runner.py:196-205 | at command `j`'s place in the transcript come its echo and, on success, its output line, then a runtime line exactly when runtimes are reported |
| TranscriptProperties.OutputRecorded | workflow_runner.py:200-210 | a success stores its full stripped stdout under `cmd_N_output` and shows the `[0:n]` slice of that value, a prefix of it and of the variable's final value when no later run of `N` succeeded |
| Workflow.LogLimit | workflow_runner.py:150-154 | `max_num_chars_cmd_output` is the integer the directive holds; a missing or non-integer value shows everything |
| Workflow.LogLimitOfDecimal | workflow_runner.py:151 | a limit written as `str(n)` is read as `n` |
| Workflow.ReportRuntimes | workflow_runner.py:157-164 | reporting is off exactly when the directive is present and either empty or `false` in any letter case |
| Workflow.ReportRuntimesOff | workflow_runner.py:159-161 | reporting is off exactly when the directive is empty or spells `false` with each letter in either case |
| Workflow.PollQueue | workflow_runner.py:173-188 | `zk_queue_path` must be defined; an empty path skips the poll; otherwise a failing `zk qpoll` ends the script with "Nothing in the workflow queue", and a successful one sets `zk_queue_value` to its stripped output |
| Workflow.PlanExit | workflow_runner.py:89-90 | only an empty plan exits with a message of the script's own; a plan error never completes the workflow |
| Workflow.CleanupRecursesAsWritten | workflow_runner.py:111-121 | as written, a cleanup directive with an undefined variable re-enters `WorkflowException` until the stack runs out |
| Workflow.CleanupFailureMasksAsWritten | workflow_runner.py:115-121 | as written, a failing cleanup command replaces command `N`'s failure with its own exception |
| Workflow.CleanupEndsWithFailure | workflow_runner.py:111-121 | the corrected cleanup always ends with command `N`'s failure; it shows output exactly when the directive exists, expands and succeeds |
| Workflow.RunWorkflow | workflow_runner.py:130-216 | the script's start-up, plan, loop and exit equal `WorkflowOf` |
| Workflow.WorkflowCompletes | workflow_runner.py:190-216 | the workflow completes exactly when start-up succeeded and every planned command ran, in plan order, and succeeded; it then prints the transcript and the closing lines |
| Workflow.FinishCompletes | workflow_runner.py:206-216 | after the loop the script completes exactly when the loop finished, and ends with command `N`'s message exactly when the loop failed at `N` |
| Workflow.WorkflowEndsAtFailure | workflow_runner.py:198-207 | the script ends with "#N command error" exactly when the command loop stopped with command `N`'s failure |
| Workflow.WorkflowNeedsQueuePath | workflow_runner.py:174-178 | without `zk_queue_path` the script exits with its own message before running or printing anything |
| Workflow.WorkflowWithoutCommands | workflow_runner.py:89-90 | an empty plan ends the script with "No workflow commands found." before any command runs |

## Left out

- Workflow.WorkflowOf, Workflow.RunWorkflow, Workflow.FinishCompletes, Workflow.WorkflowEndsAtFailure: they use the corrected `Workflow.Cleanup`. As written, a failing cleanup command, or a cleanup directive that names an undefined variable, replaces the "#N command error" exit with an uncaught exception; `Workflow.CleanupAsWritten` models that (see "## Findings").
- Process spawning (`subprocess.Popen` on `/bin/bash`) is an abstract executor, given the commands it has seen before. A real shell's side effects are not modelled.
- The wall clock (`datetime.now()`) is an abstract integer clock. Runtimes are differences of clock readings, not `str(timedelta)` text.
- The date variables (`now`, `YrMn`, `YrMnDy`, `curdate`) are given as text. `strftime` is not modelled, and `now` is a string, not a `datetime`.
- Printing is a sequence of `Engine.Line` values, not formatted text on stdout. `sys.exit` is a `Workflow.Exit` value.
- Configuration discovery (the ini files looked for and their loading order) is not modelled; a `Config` is the already-loaded sections.
- The ConfigParser `DEFAULT` section and option-name lower-casing are not modelled. `Config.sections` holds each value as `get` returns it, after the parser's `%` interpolation, so a directive's `%%` has already become `%` once before `prepare_cmd` sees it. The parser's own interpolation errors are not modelled: a directive that `has_option` finds but whose `%` the parser rejects (`1 = echo 50%`, or `%(x)s` naming no option) makes `get` raise `InterpolationSyntaxError` or `InterpolationMissingOptionError`, an uncaught crash at workflow_runner.py:194 that the model cannot represent.
- The ZooKeeper-backed `get` (`use_zookeeper`) is not modelled, nor are the typed getters reached through `getattr`, which the runner does not use.
- Command-line parsing and `print_usage` are not modelled. The starting number is a parameter, and a non-integer argument is outside the model.
- Template.Format: only `%%` and `%(name)s` are modelled. Every other `%` form (other conversions, flags, a positional `%s` with a dict, or a `%(name)s` whose name contains parentheses, such as `%(a(b))s`, which CPython looks up as the key `a(b)`) gives `Unsupported`, and the script ends as `Unmodelled`. This covers format errors other than `KeyError`.
- Numbers.ParseInt: base-10 `int()` on ASCII text only. Non-ASCII digits and whitespace in unicode strings are not modelled.
- Text.Strip, Text.Lower: whitespace is ASCII space, tab, newline, carriage return, vertical tab and form feed, and `lower` is ASCII-only. This matches Python 2 byte strings.
- Workflow.CleanupAsWritten: the Python recursion limit is a `depth` parameter, so the runaway recursion ends in `RecursionLimit` after `depth` frames.
- Runtime.WorkflowRuntime: `report_runtime` is a boolean. In the source it may be the directive's string, which counts as true unless it is empty or `false`; `Workflow.ReportRuntimes` maps that string to the boolean.

## Findings

| source | as written | input that shows it | evidently intended | confidence | as-written member | corrected member |
|---|---|---|---|---|---|---|
| workflow_runner.py:114-121 | a `KeyError` while expanding `premature_end_cmd` raises a new `WorkflowException` (line 65), whose constructor expands the same directive again | `premature_end_cmd = echo %%(undefined)s` and any failing command | the cleanup is skipped and the script exits with command N's message | high (not executed) | Workflow.CleanupRecursesAsWritten | Workflow.CleanupEndsWithFailure |
| workflow_runner.py:117-121 | the cleanup's `run_cmd` exception is not caught (only `ConfigException` is), so it escapes before `sys.exit` | `premature_end_cmd = false` and any failing command | a failed cleanup is skipped and the original failure is reported | high (not executed) | Workflow.CleanupFailureMasksAsWritten | Workflow.CleanupEndsWithFailure |

Both as-written behaviours are in `Workflow.CleanupAsWritten`. The corrected
`Workflow.Cleanup`, which `Workflow.WorkflowOf` uses, attempts the cleanup
once when the directive is present. Its output is shown only when it expands
and succeeds, and the script then exits with command N's message.
