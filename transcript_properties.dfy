/**
 * What the loop prints: each command run is echoed once, in order; each
 * success shows its output slice, a prefix of what it records under
 * `cmd_N_output`, followed by its runtime exactly when runtimes are reported.
 */
module TranscriptProperties {
  import opened Wrappers
  import Text
  import opened Engine
  import opened EngineProperties

  /** The kinds of line a transcript is filtered by. */
  datatype Kind = EchoLine | OutputLine

  predicate Is(kind: Kind, l: Line) {
    match kind
    case EchoLine => l.Echo?
    case OutputLine => l.Output?
  }

  /** The lines among `lines` that are of kind `kind`, in order. */
  function Select(lines: seq<Line>, kind: Kind): seq<Line>
    decreases |lines|
  {
    if lines == [] then []
    else Select(lines[..|lines| - 1], kind) + if Is(kind, lines[|lines| - 1]) then [lines[|lines| - 1]] else []
  }

  lemma {:induction false} SelectAppend(a: seq<Line>, b: seq<Line>, kind: Kind)
    ensures Select(a + b, kind) == Select(a, kind) + Select(b, kind)
    decreases |b|
  {
    if b == [] {
      assert a + b == a;
    } else {
      var b' := b[..|b| - 1];
      assert (a + b)[..|a + b| - 1] == a + b';
      SelectAppend(a, b', kind);
    }
  }

  /** The shape of an entry: an echo, then on success an output and, when reporting, a runtime. */
  function Layout(echo: Line, out: Line, time: Line, ok: bool, report: bool): seq<Line> {
    [echo] + if ok then [out] + (if report then [time] else []) else []
  }

  lemma EntryLayout(j: nat, r: Ran, limit: Option<int>, report: bool, clock: Clock)
    ensures Entry(j, r, limit, report, clock) ==
            Layout(EchoOf(r, limit), OutputOf(r, limit), CmdRuntime(r.num, clock(2 * j + 2) - clock(2 * j + 1)), Succeeded(r.reply), report)
  {
  }

  lemma SelectOne(l: Line, kind: Kind)
    ensures Select([l], kind) == if Is(kind, l) then [l] else []
  {
    assert [l][..0] == [];
  }

  lemma SelectLayout(echo: Line, out: Line, time: Line, ok: bool, report: bool, kind: Kind)
    ensures Select(Layout(echo, out, time, ok, report), kind) ==
            (if Is(kind, echo) then [echo] else []) + ((if ok && Is(kind, out) then [out] else []) +
            (if ok && report && Is(kind, time) then [time] else []))
  {
    var e, o := Select([echo], kind), Select([out], kind);
    SelectOne(echo, kind);
    SelectOne(out, kind);
    SelectOne(time, kind);
    if ok && report {
      var tail := [out] + [time];
      assert Layout(echo, out, time, ok, report) == [echo] + tail;
      SelectAppend([out], [time], kind);
      SelectAppend([echo], tail, kind);
    } else if ok {
      assert Layout(echo, out, time, ok, report) == [echo] + [out];
      SelectAppend([echo], [out], kind);
      assert o + [] == o;
    } else {
      assert Layout(echo, out, time, ok, report) == [echo];
      assert e + ([] + []) == e;
    }
  }

  lemma LayoutLines(echo: Line, out: Line, time: Line, ok: bool, report: bool)
    ensures var e := Layout(echo, out, time, ok, report);
            |e| == (if ok then if report then 3 else 2 else 1) && e[0] == echo &&
            (ok ==> e[1] == out) && (ok && report ==> e[2] == time)
  {
    if ok && report {
      assert Layout(echo, out, time, ok, report) == [echo, out, time];
    } else if ok {
      assert Layout(echo, out, time, ok, report) == [echo, out];
    } else {
      assert Layout(echo, out, time, ok, report) == [echo];
    }
  }

  lemma EntryEchoes(j: nat, r: Ran, limit: Option<int>, report: bool, clock: Clock)
    ensures Select(Entry(j, r, limit, report, clock), EchoLine) == [EchoOf(r, limit)]
  {
    var echo, out, time := EchoOf(r, limit), OutputOf(r, limit), CmdRuntime(r.num, clock(2 * j + 2) - clock(2 * j + 1));
    EntryLayout(j, r, limit, report, clock);
    SelectLayout(echo, out, time, Succeeded(r.reply), report, EchoLine);
    assert Is(EchoLine, echo) && !Is(EchoLine, out) && !Is(EchoLine, time);
    assert [echo] + ([] + []) == [echo];
  }

  /** The echo line of command `r`. */
  function EchoOf(r: Ran, limit: Option<int>): Line {
    Echo(r.num, Text.Slice(r.command, limit))
  }

  /**
   * The transcript echoes each command run once, in order, showing the first
   * characters of the command line as `[0:max_num_chars_cmd_output]` slices it.
   */
  lemma {:induction false} TranscriptEchoes(ran: seq<Ran>, limit: Option<int>, report: bool, clock: Clock)
    ensures var echoes := Select(Transcript(ran, limit, report, clock), EchoLine);
            |echoes| == |ran| && forall j :: 0 <= j < |ran| ==> echoes[j] == EchoOf(ran[j], limit)
    decreases |ran|
  {
    if ran != [] {
      var init, last := ran[..|ran| - 1], ran[|ran| - 1];
      TranscriptEchoes(init, limit, report, clock);
      SelectAppend(Transcript(init, limit, report, clock), Entry(|ran| - 1, last, limit, report, clock), EchoLine);
      EntryEchoes(|ran| - 1, last, limit, report, clock);
      var echoes := Select(Transcript(ran, limit, report, clock), EchoLine);
      assert echoes == Select(Transcript(init, limit, report, clock), EchoLine) + [EchoOf(last, limit)];
      forall j | 0 <= j < |ran| ensures echoes[j] == EchoOf(ran[j], limit) {
        if j < |ran| - 1 {
          assert ran[j] == init[j];
        }
      }
    }
  }

  /** The commands among `ran` that succeeded, in order. */
  function Successes(ran: seq<Ran>): seq<Ran>
    decreases |ran|
  {
    if ran == [] then []
    else Successes(ran[..|ran| - 1]) + if Succeeded(ran[|ran| - 1].reply) then [ran[|ran| - 1]] else []
  }

  /** `Successes` keeps exactly the commands that succeeded. */
  lemma {:induction false} SuccessesMembers(ran: seq<Ran>)
    ensures forall r :: r in Successes(ran) <==> r in ran && Succeeded(r.reply)
    decreases |ran|
  {
    if ran != [] {
      var init := ran[..|ran| - 1];
      SuccessesMembers(init);
      assert ran == init + [ran[|ran| - 1]];
    }
  }

  /** The output line of command `r`: the `[0:n]` slice of its stripped stdout. */
  function OutputOf(r: Ran, limit: Option<int>): Line {
    Output(Text.Slice(Text.Strip(r.reply.out), limit))
  }

  /** The output lines of the successes `ok`, in order. */
  function OutputLines(ok: seq<Ran>, limit: Option<int>): seq<Line>
    decreases |ok|
  {
    if ok == [] then [] else OutputLines(ok[..|ok| - 1], limit) + [OutputOf(ok[|ok| - 1], limit)]
  }

  lemma {:induction false} OutputLinesIndex(ok: seq<Ran>, limit: Option<int>)
    ensures |OutputLines(ok, limit)| == |ok|
    ensures forall k :: 0 <= k < |ok| ==> OutputLines(ok, limit)[k] == OutputOf(ok[k], limit)
    decreases |ok|
  {
    if ok != [] {
      var init := ok[..|ok| - 1];
      OutputLinesIndex(init, limit);
      forall k | 0 <= k < |ok| - 1 ensures OutputLines(ok, limit)[k] == OutputOf(ok[k], limit) {
        assert ok[k] == init[k];
      }
    }
  }

  /**
   * The transcript shows one output line for each command that succeeded, in
   * order, and none for a failed one: the `[0:max_num_chars_cmd_output]`
   * slice of the stripped stdout (`OutputRecorded` ties it to `cmd_N_output`).
   */
  lemma TranscriptOutputs(ran: seq<Ran>, limit: Option<int>, report: bool, clock: Clock)
    ensures var outs, ok := Select(Transcript(ran, limit, report, clock), OutputLine), Successes(ran);
            |outs| == |ok| && forall k :: 0 <= k < |ok| ==> outs[k] == OutputOf(ok[k], limit)
  {
    TranscriptOutputLines(ran, limit, report, clock);
    OutputLinesIndex(Successes(ran), limit);
  }

  lemma {:induction false} TranscriptOutputLines(ran: seq<Ran>, limit: Option<int>, report: bool, clock: Clock)
    ensures Select(Transcript(ran, limit, report, clock), OutputLine) == OutputLines(Successes(ran), limit)
    decreases |ran|
  {
    if ran != [] {
      var init, last := ran[..|ran| - 1], ran[|ran| - 1];
      var j := |ran| - 1;
      TranscriptOutputLines(init, limit, report, clock);
      assert Transcript(ran, limit, report, clock) == Transcript(init, limit, report, clock) + Entry(j, last, limit, report, clock);
      assert Successes(ran) == Successes(init) + if Succeeded(last.reply) then [last] else [];
      EntryLayout(j, last, limit, report, clock);
      OutputStep(Transcript(init, limit, report, clock), Successes(init), last, limit,
                 EchoOf(last, limit), CmdRuntime(last.num, clock(2 * j + 2) - clock(2 * j + 1)), report);
    }
  }

  /** Appending one entry to a transcript appends its output line, if any, to the output lines. */
  lemma OutputStep(t: seq<Line>, ok: seq<Ran>, r: Ran, limit: Option<int>, echo: Line, time: Line, report: bool)
    requires Select(t, OutputLine) == OutputLines(ok, limit)
    requires echo.Echo? && time.CmdRuntime?
    ensures Select(t + Layout(echo, OutputOf(r, limit), time, Succeeded(r.reply), report), OutputLine) ==
            OutputLines(ok + if Succeeded(r.reply) then [r] else [], limit)
  {
    var out := OutputOf(r, limit);
    var e := Layout(echo, out, time, Succeeded(r.reply), report);
    SelectAppend(t, e, OutputLine);
    SelectLayout(echo, out, time, Succeeded(r.reply), report, OutputLine);
    assert !Is(OutputLine, echo) && Is(OutputLine, out) && !Is(OutputLine, time);
    if Succeeded(r.reply) {
      var ok' := ok + [r];
      assert ok'[..|ok'| - 1] == ok;
      assert [] + ([out] + []) == [out];
    } else {
      assert Select(e, OutputLine) == [];
      assert ok + [] == ok;
    }
  }

  /** The entries of the commands from `i` on, in order. */
  function TranscriptFrom(ran: seq<Ran>, i: nat, limit: Option<int>, report: bool, clock: Clock): seq<Line>
    decreases |ran| - i
  {
    if i >= |ran| then [] else Entry(i, ran[i], limit, report, clock) + TranscriptFrom(ran, i + 1, limit, report, clock)
  }

  /** The transcript of all the commands is that of the commands before `i` followed by the entries from `i` on. */
  lemma {:induction false} TranscriptSplit(ran: seq<Ran>, i: nat, limit: Option<int>, report: bool, clock: Clock)
    requires i <= |ran|
    ensures Transcript(ran, limit, report, clock) == Transcript(ran[..i], limit, report, clock) + TranscriptFrom(ran, i, limit, report, clock)
    decreases |ran| - i
  {
    if i == |ran| {
      assert ran[..i] == ran;
    } else {
      TranscriptSplit(ran, i + 1, limit, report, clock);
      TranscriptStep(ran, i, limit, report, clock);
      AppendAssoc(Transcript(ran[..i], limit, report, clock), Entry(i, ran[i], limit, report, clock), TranscriptFrom(ran, i + 1, limit, report, clock));
    }
  }

  lemma TranscriptStep(ran: seq<Ran>, i: nat, limit: Option<int>, report: bool, clock: Clock)
    requires i < |ran|
    ensures Transcript(ran[..i + 1], limit, report, clock) == Transcript(ran[..i], limit, report, clock) + Entry(i, ran[i], limit, report, clock)
  {
    assert ran[..i + 1][..i] == ran[..i];
    assert ran[..i + 1][i] == ran[i];
  }

  lemma AppendAssoc(a: seq<Line>, b: seq<Line>, c: seq<Line>)
    ensures (a + b) + c == a + (b + c)
  {
  }

  /** Entry `j` sits in the transcript right after the entries before it, and an echo or the end follows it. */
  lemma EntryAt(ran: seq<Ran>, j: nat, limit: Option<int>, report: bool, clock: Clock)
    requires j < |ran|
    ensures var rest := TranscriptFrom(ran, j + 1, limit, report, clock);
            Transcript(ran, limit, report, clock) ==
              Transcript(ran[..j], limit, report, clock) + (Entry(j, ran[j], limit, report, clock) + rest) &&
            (rest == [] || rest[0].Echo?)
  {
    TranscriptSplit(ran, j, limit, report, clock);
    if j + 1 < |ran| {
      EntryLayout(j + 1, ran[j + 1], limit, report, clock);
    }
  }

  /** A command that succeeded records its stripped output, which the final variables keep unless a later run of it succeeded. */
  lemma RecordsOutput(vars: map<string, string>, ran: seq<Ran>, j: nat)
    requires j < |ran| && Succeeded(ran[j].reply)
    ensures var key, out := OutputVar(ran[j].num), Text.Strip(ran[j].reply.out);
            key in Recorded(vars, ran[..j + 1]) && Recorded(vars, ran[..j + 1])[key] == out &&
            (LastWrite(ran, key) == Some(j) ==> key in Recorded(vars, ran) && Recorded(vars, ran)[key] == out)
  {
    var r := ran[j];
    assert ran[..j + 1] == ran[..j] + [r];
    RecordedAppend(vars, ran[..j], r);
    RecordWrites(Recorded(vars, ran[..j]), r, OutputVar(r.num));
    if LastWrite(ran, OutputVar(r.num)) == Some(j) {
      RecordedOutput(vars, ran, r.num);
    }
  }

  /**
   * What command `j` of the run prints, at its place in the transcript: the
   * echo of its command line; when it succeeded, its output line and then a
   * runtime line exactly when runtimes are reported.
   */
  lemma CommandLines(ran: seq<Ran>, j: nat, limit: Option<int>, report: bool, clock: Clock)
    requires j < |ran|
    ensures var t, p, r := Transcript(ran, limit, report, clock), |Transcript(ran[..j], limit, report, clock)|, ran[j];
            p < |t| && t[p] == EchoOf(r, limit) &&
            (Succeeded(r.reply) ==>
               p + 1 < |t| && t[p + 1] == OutputOf(r, limit) &&
               ((p + 2 < |t| && t[p + 2].CmdRuntime?) <==> report) &&
               (report ==> t[p + 2] == CmdRuntime(r.num, clock(2 * j + 2) - clock(2 * j + 1))))
  {
    var r := ran[j];
    EntryAt(ran, j, limit, report, clock);
    EntryLayout(j, r, limit, report, clock);
    LayoutAt(Transcript(ran, limit, report, clock), Transcript(ran[..j], limit, report, clock), TranscriptFrom(ran, j + 1, limit, report, clock),
             EchoOf(r, limit), OutputOf(r, limit), CmdRuntime(r.num, clock(2 * j + 2) - clock(2 * j + 1)), Succeeded(r.reply), report);
  }

  /**
   * A command that succeeded records its full stripped output under
   * `cmd_N_output`; its output line shows the `[0:n]` slice of that value, a
   * prefix of it, and of the variable's final value when no later run of `N`
   * succeeded.
   */
  lemma OutputRecorded(vars: map<string, string>, ran: seq<Ran>, j: nat, limit: Option<int>)
    requires j < |ran| && Succeeded(ran[j].reply)
    ensures var key, shown := OutputVar(ran[j].num), OutputOf(ran[j], limit).shown;
            key in Recorded(vars, ran[..j + 1]) && Recorded(vars, ran[..j + 1])[key] == Text.Strip(ran[j].reply.out) &&
            shown == Text.Slice(Recorded(vars, ran[..j + 1])[key], limit) && shown <= Recorded(vars, ran[..j + 1])[key] &&
            (LastWrite(ran, key) == Some(j) ==> key in Recorded(vars, ran) && shown <= Recorded(vars, ran)[key])
  {
    RecordsOutput(vars, ran, j);
  }

  /** A layout in a transcript, followed by an echo or the end: its lines at their positions. */
  lemma LayoutAt(t: seq<Line>, pre: seq<Line>, rest: seq<Line>, echo: Line, out: Line, time: Line, ok: bool, report: bool)
    requires t == pre + (Layout(echo, out, time, ok, report) + rest)
    requires rest == [] || rest[0].Echo?
    requires time.CmdRuntime?
    ensures var p := |pre|;
            p < |t| && t[p] == echo &&
            (ok ==> p + 1 < |t| && t[p + 1] == out &&
                    ((p + 2 < |t| && t[p + 2].CmdRuntime?) <==> report) && (report ==> t[p + 2] == time))
  {
    LayoutLines(echo, out, time, ok, report);
  }
}
