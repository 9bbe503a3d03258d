/**
 * The command loop of the workflow runner: each planned directive is read,
 * expanded against the convenience variables, handed to the executor and
 * checked; a successful command's stripped output becomes variable
 * `cmd_N_output` for the commands after it, and the first failure ends the
 * loop. The executor and the wall clock are parameters.
 */
module Engine {
  import opened Wrappers
  import Text
  import Numbers
  import opened DSConfig
  import Template
  import Runtime

  /** What the executor hands back for one command line: stdout, stderr and the exit code. */
  datatype Reply = Reply(out: string, err: string, code: int)

  /** `run_cmd`'s success rule: exit code 0 and nothing on stderr. */
  predicate Succeeded(r: Reply) {
    r.code == 0 && r.err == []
  }

  /** `run_cmd` as a pure function: the stripped stdout, or the reply that makes it raise. */
  function RunCmd(reply: Reply): (r: Result<string, Reply>)
    ensures r.Ok? <==> Succeeded(reply)
    ensures r.Err? ==> r.error == reply
    ensures r.Ok? ==> r.value == Text.Strip(reply.out) && Text.Trimmed(r.value)
    ensures r.Ok? && Text.Trimmed(reply.out) ==> r.value == reply.out
  {
    if reply.err != [] || reply.code != 0 then Err(reply)
    else
      assert Text.Trimmed(reply.out) ==> Text.Strip(reply.out) == reply.out by {
        if Text.Trimmed(reply.out) {
          Text.StripTrimmed(reply.out);
        }
      }
      Ok(Text.Strip(reply.out))
  }

  /** The executor: given the command lines run before and a command line, the reply. */
  type Shell = (seq<string>, string) -> Reply

  /** The wall clock: the value of its `i`-th reading. */
  type Clock = nat -> int

  /** Why a command ends the workflow: `WorkflowException`'s two causes. */
  datatype CmdError =
    | VariableNotFound(name: string) // `prepare_cmd`'s KeyError
    | CommandFailed(reply: Reply)    // `run_cmd`'s exception

  /** How the loop ends. */
  datatype Stop =
    | Finished                          // every planned command succeeded
    | Failed(num: int, error: CmdError) // command `num` raised WorkflowException
    | UndefinedDirective(num: int)      // `get(str(num))` raised: a planned number with no directive
    | Unsupported(num: int)             // directive `num` uses a format outside the modelled grammar

  /** One command handed to the executor. */
  datatype Ran = Ran(num: int, command: string, reply: Reply)

  /** The variables after the loop, the commands run in order, and how the loop ended. */
  datatype Outcome = Outcome(vars: map<string, string>, ran: seq<Ran>, stop: Stop)

  /** `'cmd_%d_output' % n`. */
  function OutputVar(n: int): string {
    "cmd_" + Numbers.Decimal(n) + "_output"
  }

  /** `'cmd_%d' % n`, the runtime tracker's event for command `n`. */
  function CmdEvent(n: int): string {
    "cmd_" + Numbers.Decimal(n)
  }

  function Commands(ran: seq<Ran>): (cs: seq<string>)
    ensures |cs| == |ran| && forall j :: 0 <= j < |ran| ==> cs[j] == ran[j].command
  {
    seq(|ran|, j requires 0 <= j < |ran| => ran[j].command)
  }

  /** `done` ran before the commands of `o`. */
  function After(done: seq<Ran>, o: Outcome): Outcome {
    o.(ran := done + o.ran)
  }

  /** What one planned command comes to. */
  datatype Step =
    | NoDirective                              // `get(str(n))` raised
    | NotExpanded(error: Template.ExpandError) // `prepare_cmd` raised
    | Executed(ran: Ran)                       // the command line went to the executor

  /**
   * Command `n`: its directive is read, expanded against `vars` and, when
   * that succeeds, handed to the executor.
   */
  function StepOf(cfg: Config, n: int, vars: map<string, string>, history: seq<string>, shell: Shell): Step
  {
    match Get(cfg, Numbers.Decimal(n), Plain)
    case Err(_) => NoDirective
    case Ok(directive) =>
      match Template.PrepareCmd(directive.text, vars)
      case Err(e) => NotExpanded(e)
      case Ok(cmd) => Executed(Ran(n, cmd, shell(history, cmd)))
  }

  /**
   * A step reaches the executor exactly when the directive exists and its
   * expansion succeeds; the command line is that expansion, so it holds no
   * `_PERC_`, and the reply is the executor's answer to it.
   */
  lemma StepOfMeaning(cfg: Config, n: int, vars: map<string, string>, history: seq<string>, shell: Shell)
    ensures var s := StepOf(cfg, n, vars, history, shell);
            (s.NoDirective? <==> !HasOption(cfg, Numbers.Decimal(n), None)) &&
            (!s.NoDirective? ==> 
               var expanded := Template.PrepareCmd(cfg.sections[cfg.appName][Numbers.Decimal(n)], vars);
               (s.NotExpanded? <==> expanded.Err?) &&
               (s.NotExpanded? ==> s.error == expanded.error) &&
               (s.Executed? ==> expanded == Ok(s.ran.command))) &&
            (s.Executed? ==> s.ran.num == n && s.ran.reply == shell(history, s.ran.command) &&
                             Text.Absent(s.ran.command, Template.PercToken))
  {
  }

  /** Whether the loop goes on after step `s`. */
  predicate Continues(s: Step) {
    s.Executed? && Succeeded(s.ran.reply)
  }

  /** How the loop ends at a step that does not continue. */
  function Halt(n: int, s: Step): Stop {
    match s
    case NoDirective => UndefinedDirective(n)
    case NotExpanded(e) => if e.MissingVariable? then Failed(n, VariableNotFound(e.name)) else Unsupported(n)
    case Executed(r) => Failed(n, CommandFailed(r.reply))
  }

  /** The commands a step hands to the executor: none or one. */
  function Handed(s: Step): seq<Ran> {
    if s.Executed? then [s.ran] else []
  }

  /**
   * The loop over `plan` from variables `vars`, with `history` the command
   * lines the executor has already seen.
   */
  function Run(cfg: Config, plan: seq<int>, vars: map<string, string>, history: seq<string>, shell: Shell): Outcome
    decreases |plan|
  {
    if plan == [] then Outcome(vars, [], Finished)
    else
      var s := StepOf(cfg, plan[0], vars, history, shell);
      if Continues(s) then After([s.ran], Run(cfg, plan[1..], Record(vars, s.ran), history + [s.ran.command], shell))
      else Outcome(vars, Handed(s), Halt(plan[0], s))
  }

  /** The variables after command `r`: its stripped output under `cmd_N_output` when it succeeded. */
  function Record(vars: map<string, string>, r: Ran): map<string, string> {
    if Succeeded(r.reply) then vars[OutputVar(r.num) := Text.Strip(r.reply.out)] else vars
  }

  /** The variables after the commands `ran`, in order. */
  function Recorded(vars: map<string, string>, ran: seq<Ran>): map<string, string>
    decreases |ran|
  {
    if ran == [] then vars else Recorded(Record(vars, ran[0]), ran[1..])
  }

  /** The lines the loop prints; runtimes are whole clock ticks. */
  datatype Line =
    | Echo(num: int, shown: string)     // "#N >> <command> ..."
    | Output(shown: string)             // the command's output
    | CmdRuntime(num: int, elapsed: int) // "#N >> runtime: ..."
    | Completed                         // "Workflow completed at ..."
    | TotalRuntime(elapsed: int)        // ">> runtime: ..."
    | CleanupOutput(shown: string)      // "#Premature workflow end command executed ..."

  /**
   * What the `j`-th command prints: the echo before it runs and, once it
   * succeeded, its output and runtime. Its start is clock reading `2j+1`, its
   * end reading `2j+2`; reading 0 is the start of the workflow.
   */
  function Entry(j: nat, r: Ran, limit: Option<int>, report: bool, clock: Clock): seq<Line> {
    [Echo(r.num, Text.Slice(r.command, limit))] + Shown(j, r, limit, report, clock)
  }

  /** What follows the echo of the `j`-th command: its output and runtime once it succeeded, nothing otherwise. */
  function Shown(j: nat, r: Ran, limit: Option<int>, report: bool, clock: Clock): seq<Line> {
    if Succeeded(r.reply) then
      [Output(Text.Slice(Text.Strip(r.reply.out), limit))] +
      if report then [CmdRuntime(r.num, clock(2 * j + 2) - clock(2 * j + 1))] else []
    else []
  }

  function Transcript(ran: seq<Ran>, limit: Option<int>, report: bool, clock: Clock): seq<Line>
    decreases |ran|
  {
    if ran == [] then []
    else Transcript(ran[..|ran| - 1], limit, report, clock) + Entry(|ran| - 1, ran[|ran| - 1], limit, report, clock)
  }

  /** The closing lines after `m` commands succeeded; the workflow's end is reading `2m+1`. */
  function Closing(m: nat, report: bool, clock: Clock): seq<Line> {
    [Completed] + if report then [TotalRuntime(clock(2 * m + 1) - clock(0))] else []
  }

  lemma EventsDiffer(n: int)
    ensures CmdEvent(n) != "workflow"
  {
    assert CmdEvent(n)[0] == 'c';
  }

  lemma AfterNothing(o: Outcome)
    ensures After([], o) == o
  {
    assert [] + o.ran == o.ran;
  }

  lemma AfterOutcome(done: seq<Ran>, vars: map<string, string>, ran: seq<Ran>, stop: Stop)
    ensures After(done, Outcome(vars, ran, stop)) == Outcome(vars, done + ran, stop)
  {
  }

  lemma TranscriptAppend(ran: seq<Ran>, r: Ran, limit: Option<int>, report: bool, clock: Clock)
    ensures Transcript(ran + [r], limit, report, clock) == Transcript(ran, limit, report, clock) + Entry(|ran|, r, limit, report, clock)
  {
    assert (ran + [r])[..|ran|] == ran;
  }

  lemma TranscriptHanded(ran: seq<Ran>, s: Step, limit: Option<int>, report: bool, clock: Clock)
    ensures Transcript(ran + Handed(s), limit, report, clock) ==
            Transcript(ran, limit, report, clock) + if s.Executed? then Entry(|ran|, s.ran, limit, report, clock) else []
  {
    if s.Executed? {
      TranscriptAppend(ran, s.ran, limit, report, clock);
    } else {
      assert ran + Handed(s) == ran;
    }
  }

  lemma HaltNotFinished(n: int, s: Step)
    ensures Halt(n, s) != Finished
  {
  }

  lemma RunDone(cfg: Config, vars: map<string, string>, history: seq<string>, shell: Shell)
    ensures Run(cfg, [], vars, history, shell) == Outcome(vars, [], Finished)
  {
  }

  lemma RunHalts(cfg: Config, plan: seq<int>, vars: map<string, string>, history: seq<string>, shell: Shell)
    requires plan != [] && !Continues(StepOf(cfg, plan[0], vars, history, shell))
    ensures var s := StepOf(cfg, plan[0], vars, history, shell);
            Run(cfg, plan, vars, history, shell) == Outcome(vars, Handed(s), Halt(plan[0], s))
  {
  }

  lemma RunContinues(cfg: Config, plan: seq<int>, vars: map<string, string>, history: seq<string>, shell: Shell)
    requires plan != [] && Continues(StepOf(cfg, plan[0], vars, history, shell))
    ensures var s := StepOf(cfg, plan[0], vars, history, shell);
            Run(cfg, plan, vars, history, shell) ==
            After([s.ran], Run(cfg, plan[1..], Record(vars, s.ran), history + [s.ran.command], shell))
  {
  }

  lemma AfterAfter(a: seq<Ran>, b: seq<Ran>, o: Outcome)
    ensures After(a, After(b, o)) == After(a + b, o)
  {
    assert a + (b + o.ran) == (a + b) + o.ran;
  }

  lemma CommandsAppend(before: seq<string>, ran: seq<Ran>, r: Ran)
    ensures before + Commands(ran + [r]) == before + Commands(ran) + [r.command]
  {
  }

  /** The loop's result when command `plan[k]` ends it. */
  lemma HaltPath(cfg: Config, plan: seq<int>, k: nat, goal: Outcome,
                 vars: map<string, string>, history: seq<string>, ran: seq<Ran>, step: Step, shell: Shell,
                 log: seq<Line>, lines: seq<Line>, limit: Option<int>, report: bool, clock: Clock)
    requires k < |plan| && |ran| == k
    requires goal == After(ran, Run(cfg, plan[k..], vars, history, shell))
    requires log == Transcript(ran, limit, report, clock)
    requires step == StepOf(cfg, plan[k], vars, history, shell) && !Continues(step)
    requires lines == if step.Executed? then Entry(k, step.ran, limit, report, clock) else []
    ensures var o := Outcome(vars, ran + Handed(step), Halt(plan[k], step));
            o == goal &&
            log + lines == Transcript(o.ran, limit, report, clock) + if o.stop == Finished then Closing(|o.ran|, report, clock) else []
  {
    assert plan[k..][0] == plan[k];
    RunHalts(cfg, plan[k..], vars, history, shell);
    AfterOutcome(ran, vars, Handed(step), Halt(plan[k], step));
    TranscriptHanded(ran, step, limit, report, clock);
    HaltNotFinished(plan[k], step);
  }

  /** The loop's state after command `plan[k]` succeeded. */
  lemma ContinuePath(cfg: Config, plan: seq<int>, k: nat, goal: Outcome, before: seq<string>,
                     vars: map<string, string>, history: seq<string>, ran: seq<Ran>, step: Step, shell: Shell,
                     log: seq<Line>, lines: seq<Line>, limit: Option<int>, report: bool, clock: Clock)
    requires k < |plan| && |ran| == k && history == before + Commands(ran)
    requires goal == After(ran, Run(cfg, plan[k..], vars, history, shell))
    requires log == Transcript(ran, limit, report, clock)
    requires step == StepOf(cfg, plan[k], vars, history, shell) && Continues(step)
    requires lines == Entry(k, step.ran, limit, report, clock)
    ensures goal ==
            After(ran + [step.ran], Run(cfg, plan[k + 1..], Record(vars, step.ran), history + [step.ran.command], shell))
    ensures log + lines == Transcript(ran + [step.ran], limit, report, clock)
    ensures history + [step.ran.command] == before + Commands(ran + [step.ran])
  {
    assert plan[k..][0] == plan[k] && plan[k..][1..] == plan[k + 1..];
    RunContinues(cfg, plan[k..], vars, history, shell);
    AfterAfter(ran, [step.ran], Run(cfg, plan[k + 1..], Record(vars, step.ran), history + [step.ran.command], shell));
    TranscriptAppend(ran, step.ran, limit, report, clock);
    CommandsAppend(before, ran, step.ran);
  }

  /** The loop's result once every planned command succeeded. */
  lemma FinishPath(cfg: Config, plan: seq<int>, k: nat, goal: Outcome,
                   vars: map<string, string>, history: seq<string>, ran: seq<Ran>, shell: Shell)
    requires k == |plan|
    requires goal == After(ran, Run(cfg, plan[k..], vars, history, shell))
    ensures goal == Outcome(vars, ran, Finished)
  {
    assert plan[k..] == [];
    RunDone(cfg, vars, history, shell);
    AfterOutcome(ran, vars, [], Finished);
    assert ran + [] == ran;
  }

  /**
   * The lines printed once the loop is done: the completion notice and, when
   * reporting, the workflow's runtime up to reading `2m+1`.
   */
  method Close(tracker: Runtime.WorkflowRuntime, m: nat, clock: Clock) returns (closing: seq<Line>)
    requires tracker.Valid()
    requires tracker.reportRuntime ==> "workflow" in tracker.runtimes && tracker.runtimes["workflow"] == clock(0)
    ensures closing == Closing(m, tracker.reportRuntime, clock)
  {
    closing := [Completed];
    var total := tracker.Report("workflow", clock(2 * m + 1));
    if total.Some? {
      closing := closing + [TotalRuntime(total.value)];
    }
  }

  /**
   * One command of the loop: read and expand its directive, echo it, start
   * its timer, run it, and on success show its output and, when reporting,
   * its runtime. Readings `2k+1` and `2k+2` of the clock are the command's
   * start and end.
   */
  method Execute(tracker: Runtime.WorkflowRuntime, k: nat, cfg: Config, n: int, vars: map<string, string>,
                 history: seq<string>, limit: Option<int>, shell: Shell, clock: Clock)
    returns (step: Step, lines: seq<Line>)
    requires tracker.Valid()
    modifies tracker
    ensures tracker.Valid()
    ensures step == StepOf(cfg, n, vars, history, shell) && (step.Executed? ==> step.ran.num == n)
    ensures tracker.runtimes == if step.Executed? && tracker.reportRuntime then old(tracker.runtimes)[CmdEvent(n) := clock(2 * k + 1)] else old(tracker.runtimes)
    ensures lines == if step.Executed? then Entry(k, step.ran, limit, tracker.reportRuntime, clock) else []
  {
    var directive := Get(cfg, Numbers.Decimal(n), Plain);
    if directive.Err? {
      return NoDirective, [];
    }
    var prepared := Template.PrepareCmd(directive.value.text, vars);
    if prepared.Err? {
      return NotExpanded(prepared.error), [];
    }
    var command := prepared.value;
    tracker.Track(CmdEvent(n), clock(2 * k + 1));
    var reply := shell(history, command);
    step := Executed(Ran(n, command, reply));
    var result := RunCmd(reply);
    var shown := [];
    if result.Ok? {
      var runtime := tracker.Report(CmdEvent(n), clock(2 * k + 2));
      assert runtime.Some? <==> tracker.reportRuntime;
      assert runtime.Some? ==> runtime.value == clock(2 * k + 2) - clock(2 * k + 1);
      var timing := if runtime.Some? then [CmdRuntime(n, runtime.value)] else [];
      shown := [Output(Text.Slice(result.value, limit))] + timing;
    }
    lines := [Echo(n, Text.Slice(command, limit))] + shown;
  }

  /**
   * One pass of the loop body for command `plan[k]`: either the loop stops
   * here with its final outcome and lines, or the command's output is
   * recorded and the loop's state moves on to `k + 1`.
   */
  method Advance(tracker: Runtime.WorkflowRuntime, cfg: Config, plan: seq<int>, ghost goal: Outcome, before: seq<string>,
                 limit: Option<int>, shell: Shell, clock: Clock,
                 k: nat, vars: map<string, string>, history: seq<string>, ran: seq<Ran>, log: seq<Line>)
    returns (halted: bool, o: Outcome, vars': map<string, string>, history': seq<string>, ran': seq<Ran>, log': seq<Line>)
    requires k < |plan| && |ran| == k && history == before + Commands(ran)
    requires goal == After(ran, Run(cfg, plan[k..], vars, history, shell))
    requires log == Transcript(ran, limit, tracker.reportRuntime, clock)
    requires tracker.Valid()
    requires tracker.reportRuntime ==> "workflow" in tracker.runtimes && tracker.runtimes["workflow"] == clock(0)
    modifies tracker
    ensures tracker.Valid()
    ensures tracker.reportRuntime ==> "workflow" in tracker.runtimes && tracker.runtimes["workflow"] == clock(0)
    ensures halted ==> o == goal &&
                       log' == Transcript(o.ran, limit, tracker.reportRuntime, clock) +
                               if o.stop == Finished then Closing(|o.ran|, tracker.reportRuntime, clock) else []
    ensures !halted ==> |ran'| == k + 1 && history' == before + Commands(ran') &&
                        goal == After(ran', Run(cfg, plan[k + 1..], vars', history', shell)) &&
                        log' == Transcript(ran', limit, tracker.reportRuntime, clock)
  {
    var report := tracker.reportRuntime;
    var n := plan[k];
    var step, lines := Execute(tracker, k, cfg, n, vars, history, limit, shell, clock);
    EventsDiffer(n);
    if !step.Executed? || RunCmd(step.ran.reply).Err? {
      HaltPath(cfg, plan, k, goal, vars, history, ran, step, shell, log, lines, limit, report, clock);
      o := Outcome(vars, ran + Handed(step), Halt(n, step));
      return true, o, vars, history, o.ran, log + lines;
    }
    var entry := step.ran;
    ContinuePath(cfg, plan, k, goal, before, vars, history, ran, step, shell, log, lines, limit, report, clock);
    vars' := vars[OutputVar(n) := RunCmd(entry.reply).value];
    assert vars' == Record(vars, entry);
    ran' := ran + [entry];
    return false, Outcome(vars', ran', Finished), vars', history + [entry.command], ran', log + lines;
  }

  /**
   * The main command loop: the runtime tracker is started, the plan's commands run in
   * order, and the loop ends at the first failure; the result is `Run` and
   * the printed lines are the transcript of the commands run.
   */
  method RunCommands(cfg: Config, plan: seq<int>, vars0: map<string, string>, before: seq<string>,
                     limit: Option<int>, report: bool, shell: Shell, clock: Clock)
    returns (o: Outcome, log: seq<Line>)
    ensures o == Run(cfg, plan, vars0, before, shell)
    ensures log == Transcript(o.ran, limit, report, clock) + if o.stop == Finished then Closing(|o.ran|, report, clock) else []
  {
    var tracker := new Runtime.WorkflowRuntime(report);
    tracker.Track("workflow", clock(0));
    var vars := vars0;
    var ran: seq<Ran> := [];
    var history := before;
    log := [];
    var k := 0;
    AfterNothing(Run(cfg, plan, vars0, before, shell));
    assert plan[0..] == plan;
    while k < |plan|
      invariant 0 <= k <= |plan| && |ran| == k && history == before + Commands(ran)
      invariant Run(cfg, plan, vars0, before, shell) == After(ran, Run(cfg, plan[k..], vars, history, shell))
      invariant log == Transcript(ran, limit, report, clock)
      invariant tracker.Valid() && tracker.reportRuntime == report
      invariant report ==> "workflow" in tracker.runtimes && tracker.runtimes["workflow"] == clock(0)
    {
      var halted, outcome;
      halted, outcome, vars, history, ran, log := Advance(tracker, cfg, plan, Run(cfg, plan, vars0, before, shell), before, limit, shell, clock, k, vars, history, ran, log);
      if halted {
        return outcome, log;
      }
      k := k + 1;
    }
    FinishPath(cfg, plan, k, Run(cfg, plan, vars0, before, shell), vars, history, ran, shell);
    var closing := Close(tracker, k, clock);
    log := log + closing;
    return Outcome(vars, ran, Finished), log;
  }
}
