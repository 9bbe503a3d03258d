/**
 * The workflow runner from end to end: the optional directives that shape
 * the run (`max_num_chars_cmd_output`, `report_runtimes`), the date
 * variables, the optional poll of a ZooKeeper queue, the plan of command
 * numbers, the command loop and, when a command fails, the optional
 * `premature_end_cmd` cleanup. The executor, the clock and the date text are
 * parameters; every way the script can end is a value of `Exit`.
 */
module Workflow {
  import opened Wrappers
  import Text
  import Numbers
  import opened DSConfig
  import Template
  import Sequencer
  import opened Engine
  import opened EngineProperties

  /** `zookeeper_bin`. */
  const ZookeeperBin := "/usr/local/bin/zk"

  /** The text of the date variables, from the one clock reading `now` taken at start-up. */
  datatype Dates = Dates(now: string, yrMn: string, yrMnDy: string, curdate: string)

  /** `WFConfigException`: the script exits with a message of its own. */
  datatype ConfigReason =
    | NoCommandsFound      // "No workflow commands found."
    | NoQueuePath          // "ZK queue path directive not found in config file ..."
    | EmptyQueue(path: string) // "Nothing in the workflow queue '<path>'"

  /** An exception nothing catches: the script dies with a traceback. */
  datatype CrashReason =
    | MissingSection(section: string) // the parser's NoSectionError
    | BadOverride(entry: string)      // `int(x)` on an `always_run_cmds` entry
    | MissingDirective(num: int)      // `get(str(n))` for an `always_run_cmds` number without a directive
    | CleanupFailed(reply: Reply)     // the cleanup command's own `run_cmd` exception
    | RecursionLimit                  // `WorkflowException.__init__` re-entered until the stack ran out

  /** How the script ends. */
  datatype Exit =
    | Complete                        // "Workflow completed at ...", exit status 0
    | Ended(num: int, error: CmdError) // "Workflow ended prematurely, #N command error: ..."
    | ConfigExit(reason: ConfigReason)
    | Crashed(cause: CrashReason)
    | Unmodelled                      // a directive uses a `%` form outside the modelled grammar

  /** How the script ends and the lines it printed. */
  datatype Ending = Ending(exit: Exit, lines: seq<Line>)

  /**
   * `max_num_chars_cmd_output`: how much of each command and output is
   * shown. A missing or non-integer value shows everything (`None`).
   */
  function LogLimit(cfg: Config): (r: Result<Option<int>, CrashReason>)
    ensures r.Err? <==> cfg.appName !in cfg.sections
    ensures r.Err? ==> r.error == MissingSection(cfg.appName)
    ensures r.Ok? && r.value.Some? <==>
              HasOption(cfg, "max_num_chars_cmd_output", None) &&
              Numbers.ParseInt(cfg.sections[cfg.appName]["max_num_chars_cmd_output"]).Some?
    ensures r.Ok? && r.value.Some? ==> r.value == Numbers.ParseInt(cfg.sections[cfg.appName]["max_num_chars_cmd_output"])
  {
    match Get(cfg, "max_num_chars_cmd_output", Plain)
    case Err(NoSectionError(s)) => Err(MissingSection(s))
    case Err(ConfigException(_)) => Ok(None)
    case Ok(v) => Ok(Numbers.ParseInt(v.text))
  }

  /** A limit written as `str(n)` is read back as `n`. */
  lemma LogLimitOfDecimal(cfg: Config, n: int)
    requires HasOption(cfg, "max_num_chars_cmd_output", None)
    requires cfg.sections[cfg.appName]["max_num_chars_cmd_output"] == Numbers.Decimal(n)
    ensures LogLimit(cfg) == Ok(Some(n))
  {
    Numbers.ParseDecimal(n);
  }

  /**
   * `report_runtimes`: reporting is on unless the directive is present and
   * either empty (a false string) or `false` in any letter case.
   */
  function ReportRuntimes(cfg: Config): (r: Result<bool, CrashReason>)
    ensures r.Err? <==> cfg.appName !in cfg.sections
    ensures r.Err? ==> r.error == MissingSection(cfg.appName)
    ensures r == Ok(false) <==>
              HasOption(cfg, "report_runtimes", None) &&
              var raw := cfg.sections[cfg.appName]["report_runtimes"];
              raw == [] || Text.Lower(raw) == "false"
  {
    match Get(cfg, "report_runtimes", Plain)
    case Err(NoSectionError(s)) => Err(MissingSection(s))
    case Err(ConfigException(_)) => Ok(true)
    case Ok(v) => Ok(v.text != [] && Text.Lower(v.text) != "false")
  }

  /**
   * "`false` in any letter case" spelled out: reporting is off exactly when
   * the directive is empty or is the five letters of `false`, each in lower
   * or upper case.
   */
  lemma ReportRuntimesOff(cfg: Config)
    ensures ReportRuntimes(cfg) == Ok(false) <==>
              HasOption(cfg, "report_runtimes", None) &&
              var raw := cfg.sections[cfg.appName]["report_runtimes"];
              raw == [] || (|raw| == 5 && forall i :: 0 <= i < 5 ==> raw[i] == "false"[i] || raw[i] == "FALSE"[i])
  {
    if HasOption(cfg, "report_runtimes", None) {
      var raw := cfg.sections[cfg.appName]["report_runtimes"];
      Text.LowerMatches(raw, "false");
      assert forall i :: 0 <= i < 5 ==> Text.UpperChar("false"[i]) == "FALSE"[i];
    }
  }

  /** The convenience variables before any command ran. */
  function Conveniences(d: Dates): (vars: map<string, string>)
    ensures vars.Keys == {"now", "YrMn", "YrMnDy", "curdate"}
    ensures vars["now"] == d.now && vars["YrMn"] == d.yrMn && vars["YrMnDy"] == d.yrMnDy && vars["curdate"] == d.curdate
  {
    map["now" := d.now, "YrMn" := d.yrMn, "YrMnDy" := d.yrMnDy, "curdate" := d.curdate]
  }

  /** The variables and executor history after the queue poll. */
  datatype Polled = Polled(vars: map<string, string>, history: seq<string>)

  /**
   * `zk_queue_path`: it must be defined. An empty path skips the poll;
   * otherwise `zk qpoll <path>` must succeed, and its stripped output
   * becomes `%(zk_queue_value)s`.
   */
  function PollQueue(cfg: Config, vars: map<string, string>, shell: Shell): (r: Result<Polled, Exit>)
    ensures cfg.appName !in cfg.sections ==> r == Err(Crashed(MissingSection(cfg.appName)))
    ensures cfg.appName in cfg.sections && !HasOption(cfg, "zk_queue_path", None) ==> r == Err(ConfigExit(NoQueuePath))
    ensures HasOption(cfg, "zk_queue_path", None) && cfg.sections[cfg.appName]["zk_queue_path"] == [] ==> r == Ok(Polled(vars, []))
    ensures HasOption(cfg, "zk_queue_path", None) && cfg.sections[cfg.appName]["zk_queue_path"] != [] ==>
              var path := cfg.sections[cfg.appName]["zk_queue_path"];
              var poll := ZookeeperBin + " qpoll " + path;
              r == if Succeeded(shell([], poll))
                   then Ok(Polled(vars["zk_queue_value" := Text.Strip(shell([], poll).out)], [poll]))
                   else Err(ConfigExit(EmptyQueue(path)))
  {
    match Get(cfg, "zk_queue_path", Plain)
    case Err(NoSectionError(s)) => Err(Crashed(MissingSection(s)))
    case Err(ConfigException(_)) => Err(ConfigExit(NoQueuePath))
    case Ok(v) =>
      if v.text == [] then Ok(Polled(vars, []))
      else
        var poll := ZookeeperBin + " qpoll " + v.text;
        match RunCmd(shell([], poll))
        case Err(_) => Err(ConfigExit(EmptyQueue(v.text)))
        case Ok(value) => Ok(Polled(vars["zk_queue_value" := value], [poll]))
  }

  /** A plan error ends the script: a `WFConfigException` or an uncaught exception. */
  function PlanExit(e: Sequencer.PlanError): (r: Exit)
    ensures r.ConfigExit? <==> e.NoCommandsFound?
    ensures r != Complete && !r.Ended?
  {
    match e
    case NoCommandsFound => ConfigExit(NoCommandsFound)
    case BadOverride(entry) => Crashed(BadOverride(entry))
    case MissingSection(s) => Crashed(MissingSection(s))
  }

  /** Everything the command loop starts from. */
  datatype Setup = Setup(limit: Option<int>, report: bool, vars: map<string, string>, history: seq<string>, plan: seq<int>)

  /** The start-up before the first command, in the script's order. */
  function SetupOf(cfg: Config, start: int, dates: Dates, shell: Shell): Result<Setup, Exit> {
    match LogLimit(cfg)
    case Err(c) => Err(Crashed(c))
    case Ok(limit) =>
      match ReportRuntimes(cfg)
      case Err(c) => Err(Crashed(c))
      case Ok(report) =>
        match PollQueue(cfg, Conveniences(dates), shell)
        case Err(e) => Err(e)
        case Ok(polled) =>
          match Sequencer.PlanOf(cfg, start)
          case Err(e) => Err(PlanExit(e))
          case Ok(plan) => Ok(Setup(limit, report, polled.vars, polled.history, plan))
  }

  /**
   * `WorkflowException` as written: the cleanup directive is expanded and
   * run before the exit. A missing variable in it raises a new
   * `WorkflowException` whose constructor tries the same cleanup again, so
   * `depth` counts the stack frames left; a failing cleanup command raises
   * out of the constructor before the exit.
   */
  function CleanupAsWritten(cfg: Config, n: int, err: CmdError, vars: map<string, string>, history: seq<string>,
                            shell: Shell, depth: nat): Ending
    decreases depth
  {
    match Get(cfg, "premature_end_cmd", Plain)
    case Err(NoSectionError(s)) => Ending(Crashed(MissingSection(s)), [])
    case Err(ConfigException(_)) => Ending(Ended(n, err), [])
    case Ok(v) =>
      match Template.PrepareCmd(v.text, vars)
      case Err(Unsupported) => Ending(Unmodelled, [])
      case Err(MissingVariable(name)) =>
        if depth == 0 then Ending(Crashed(RecursionLimit), [])
        else CleanupAsWritten(cfg, n, VariableNotFound(name), vars, history, shell, depth - 1)
      case Ok(cmd) =>
        match RunCmd(shell(history, cmd))
        case Err(reply) => Ending(Crashed(CleanupFailed(reply)), [])
        case Ok(out) => Ending(Ended(n, err), [CleanupOutput(out)])
  }

  /**
   * A cleanup directive that refers to a variable no command set sends the
   * constructor into itself until the stack runs out, whatever its depth:
   * the workflow never ends with command `n`'s message.
   */
  lemma {:induction false} CleanupRecursesAsWritten(cfg: Config, n: int, err: CmdError, vars: map<string, string>,
                                                    history: seq<string>, shell: Shell, depth: nat)
    requires HasOption(cfg, "premature_end_cmd", None)
    requires Template.PrepareCmd(cfg.sections[cfg.appName]["premature_end_cmd"], vars).Err?
    requires Template.PrepareCmd(cfg.sections[cfg.appName]["premature_end_cmd"], vars).error.MissingVariable?
    ensures CleanupAsWritten(cfg, n, err, vars, history, shell, depth) == Ending(Crashed(RecursionLimit), [])
    decreases depth
  {
    if depth > 0 {
      var name := Template.PrepareCmd(cfg.sections[cfg.appName]["premature_end_cmd"], vars).error.name;
      CleanupRecursesAsWritten(cfg, n, VariableNotFound(name), vars, history, shell, depth - 1);
    }
  }

  /**
   * A cleanup command that fails replaces command `n`'s failure by its own
   * exception: the script dies with a traceback instead of the
   * "ended prematurely" message.
   */
  lemma CleanupFailureMasksAsWritten(cfg: Config, n: int, err: CmdError, vars: map<string, string>,
                                     history: seq<string>, shell: Shell, depth: nat, cmd: string)
    requires HasOption(cfg, "premature_end_cmd", None)
    requires Template.PrepareCmd(cfg.sections[cfg.appName]["premature_end_cmd"], vars) == Ok(cmd)
    requires !Succeeded(shell(history, cmd))
    ensures CleanupAsWritten(cfg, n, err, vars, history, shell, depth).exit == Crashed(CleanupFailed(shell(history, cmd)))
  {
  }

  /**
   * `WorkflowException` as intended: the cleanup directive, when present, is
   * expanded and run once, its output shown when it succeeds, and the script
   * then exits with command `n`'s message.
   */
  function Cleanup(cfg: Config, n: int, err: CmdError, vars: map<string, string>, history: seq<string>, shell: Shell): Ending {
    var shown :=
      match Get(cfg, "premature_end_cmd", Plain)
      case Err(_) => []
      case Ok(v) =>
        match Template.PrepareCmd(v.text, vars)
        case Err(_) => []
        case Ok(cmd) =>
          match RunCmd(shell(history, cmd))
          case Err(_) => []
          case Ok(out) => [CleanupOutput(out)];
    Ending(Ended(n, err), shown)
  }

  /**
   * The intended cleanup always ends with command `n`'s own failure; it
   * shows the cleanup's output exactly when the directive exists, expands
   * and succeeds.
   */
  lemma CleanupEndsWithFailure(cfg: Config, n: int, err: CmdError, vars: map<string, string>, history: seq<string>, shell: Shell)
    ensures var c := Cleanup(cfg, n, err, vars, history, shell);
            c.exit == Ended(n, err) &&
            |c.lines| <= 1 &&
            (c.lines != [] <==>
               HasOption(cfg, "premature_end_cmd", None) &&
               var expanded := Template.PrepareCmd(cfg.sections[cfg.appName]["premature_end_cmd"], vars);
               expanded.Ok? && Succeeded(shell(history, expanded.value)))
  {
  }

  /** How the script ends once the command loop stopped with `o`. */
  function Finish(cfg: Config, o: Outcome, history: seq<string>, shell: Shell): Ending {
    match o.stop
    case Finished => Ending(Complete, [])
    case Failed(n, err) => Cleanup(cfg, n, err, o.vars, history + Commands(o.ran), shell)
    case UndefinedDirective(n) => Ending(Crashed(MissingDirective(n)), [])
    case Unsupported(_) => Ending(Unmodelled, [])
  }

  /** The whole script: how it ends and what it printed. */
  function WorkflowOf(cfg: Config, start: int, dates: Dates, shell: Shell, clock: Clock): Ending {
    match SetupOf(cfg, start, dates, shell)
    case Err(e) => Ending(e, [])
    case Ok(su) =>
      var o := Run(cfg, su.plan, su.vars, su.history, shell);
      var log := Transcript(o.ran, su.limit, su.report, clock) + if o.stop == Finished then Closing(|o.ran|, su.report, clock) else [];
      var f := Finish(cfg, o, su.history, shell);
      Ending(f.exit, log + f.lines)
  }

  /**
   * The script: start-up, plan, command loop and the way it ends. The
   * starting command number is the second command-line argument.
   */
  method RunWorkflow(cfg: Config, start: int, dates: Dates, shell: Shell, clock: Clock) returns (e: Ending)
    ensures e == WorkflowOf(cfg, start, dates, shell, clock)
  {
    var limit := LogLimit(cfg);
    if limit.Err? {
      return Ending(Crashed(limit.error), []);
    }
    // The application's section exists once `LogLimit` did not fail, so this lookup cannot fail.
    var report := ReportRuntimes(cfg);
    var polled := PollQueue(cfg, Conveniences(dates), shell);
    if polled.Err? {
      return Ending(polled.error, []);
    }
    var plan := Sequencer.Plan(cfg, start);
    if plan.Err? {
      return Ending(PlanExit(plan.error), []);
    }
    var o, log := RunCommands(cfg, plan.value, polled.value.vars, polled.value.history, limit.value, report.value, shell, clock);
    var f := Finish(cfg, o, polled.value.history, shell);
    e := Ending(f.exit, log + f.lines);
  }

  /**
   * The script completes exactly when start-up succeeded and every planned
   * command ran, in plan order, and succeeded; it then prints the transcript
   * followed by the completion lines.
   */
  lemma WorkflowCompletes(cfg: Config, start: int, dates: Dates, shell: Shell, clock: Clock)
    ensures var w := WorkflowOf(cfg, start, dates, shell, clock);
            w.exit == Complete <==>
              SetupOf(cfg, start, dates, shell).Ok? &&
              var su := SetupOf(cfg, start, dates, shell).value;
              var o := Engine.Run(cfg, su.plan, su.vars, su.history, shell);
              |o.ran| == |su.plan| && AllSucceeded(o.ran)
    ensures var w := WorkflowOf(cfg, start, dates, shell, clock);
            w.exit == Complete ==>
              var su := SetupOf(cfg, start, dates, shell).value;
              var o := Engine.Run(cfg, su.plan, su.vars, su.history, shell);
              (forall j :: 0 <= j < |su.plan| ==> o.ran[j].num == su.plan[j]) &&
              w.lines == Transcript(o.ran, su.limit, su.report, clock) + Closing(|su.plan|, su.report, clock)
  {
    if SetupOf(cfg, start, dates, shell).Ok? {
      var su := SetupOf(cfg, start, dates, shell).value;
      var o := Engine.Run(cfg, su.plan, su.vars, su.history, shell);
      RunStopsAtFirstFailure(cfg, su.plan, su.vars, su.history, shell);
      RunFollowsPlan(cfg, su.plan, su.vars, su.history, shell);
      FinishCompletes(cfg, o, su.history, shell);
      if o.stop == Finished {
        assert Finish(cfg, o, su.history, shell).lines == [];
      }
    }
  }

  lemma FinishCompletes(cfg: Config, o: Outcome, history: seq<string>, shell: Shell)
    ensures Finish(cfg, o, history, shell).exit == Complete <==> o.stop == Finished
    ensures Finish(cfg, o, history, shell).exit.Ended? <==> o.stop.Failed?
    ensures o.stop.Failed? ==> Finish(cfg, o, history, shell).exit == Ended(o.stop.num, o.stop.error)
  {
    if o.stop.Failed? {
      CleanupEndsWithFailure(cfg, o.stop.num, o.stop.error, o.vars, history + Commands(o.ran), shell);
    }
  }

  /**
   * The script ends with command `n`'s failure exactly when the command loop
   * stopped with that failure (what such a stop means is stated by
   * `RunStopsAtFirstFailure` and `RunHaltsAtStep`).
   */
  lemma WorkflowEndsAtFailure(cfg: Config, start: int, dates: Dates, shell: Shell, clock: Clock)
    ensures var w := WorkflowOf(cfg, start, dates, shell, clock);
            w.exit.Ended? <==>
              SetupOf(cfg, start, dates, shell).Ok? &&
              var su := SetupOf(cfg, start, dates, shell).value;
              Engine.Run(cfg, su.plan, su.vars, su.history, shell).stop.Failed?
    ensures var w := WorkflowOf(cfg, start, dates, shell, clock);
            w.exit.Ended? ==>
              var su := SetupOf(cfg, start, dates, shell).value;
              Engine.Run(cfg, su.plan, su.vars, su.history, shell).stop == Failed(w.exit.num, w.exit.error)
  {
    if SetupOf(cfg, start, dates, shell).Ok? {
      var su := SetupOf(cfg, start, dates, shell).value;
      FinishCompletes(cfg, Engine.Run(cfg, su.plan, su.vars, su.history, shell), su.history, shell);
    }
  }

  /**
   * Without a `zk_queue_path` directive the script exits with its own
   * message before running or printing anything.
   */
  lemma WorkflowNeedsQueuePath(cfg: Config, start: int, dates: Dates, shell: Shell, clock: Clock)
    requires cfg.appName in cfg.sections && "zk_queue_path" !in cfg.sections[cfg.appName]
    ensures WorkflowOf(cfg, start, dates, shell, clock) == Ending(ConfigExit(NoQueuePath), [])
  {
  }

  /**
   * A plan with no command numbers ends the script with "No workflow
   * commands found." after start-up, before any command runs.
   */
  lemma WorkflowWithoutCommands(cfg: Config, start: int, dates: Dates, shell: Shell, clock: Clock)
    requires PollQueue(cfg, Conveniences(dates), shell).Ok?
    requires Sequencer.PlanOf(cfg, start) == Err(Sequencer.NoCommandsFound)
    ensures WorkflowOf(cfg, start, dates, shell, clock) == Ending(ConfigExit(NoCommandsFound), [])
  {
  }
}
