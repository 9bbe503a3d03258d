/**
 * What the command loop promises: commands run in plan order, each one the
 * expansion of its directive against the variables the commands before it
 * left, the loop stops at the first failure, and `cmd_N_output` holds the
 * last successful output of command `N`.
 */
module EngineProperties {
  import opened Wrappers
  import Text
  import Numbers
  import opened DSConfig
  import Template
  import opened Engine

  predicate AllSucceeded(ran: seq<Ran>) {
    forall j :: 0 <= j < |ran| ==> Succeeded(ran[j].reply)
  }

  lemma CommandsCons(r: Ran, rest: seq<Ran>, j: nat)
    requires j <= |rest|
    ensures Commands(([r] + rest)[..j + 1]) == [r.command] + Commands(rest[..j])
  {
    assert ([r] + rest)[..j + 1] == [r] + rest[..j];
  }

  lemma RecordedCons(vars: map<string, string>, r: Ran, rest: seq<Ran>)
    ensures Recorded(vars, [r] + rest) == Recorded(Record(vars, r), rest)
  {
    assert ([r] + rest)[1..] == rest;
  }

  /** The commands `ran` are, in order, the first commands of `plan`. */
  predicate FollowsPlan(ran: seq<Ran>, plan: seq<int>) {
    |ran| <= |plan| && forall j :: 0 <= j < |ran| ==> ran[j].num == plan[j]
  }

  lemma FollowsPlanCons(r: Ran, rest: seq<Ran>, plan: seq<int>)
    requires plan != [] && r.num == plan[0] && FollowsPlan(rest, plan[1..])
    ensures FollowsPlan([r] + rest, plan)
  {
    var ran := [r] + rest;
    forall j | 0 < j < |ran| ensures ran[j].num == plan[j] {
      assert ran[j] == rest[j - 1] && plan[j] == plan[1..][j - 1];
    }
  }

  /** The commands run are, in order, the first commands of the plan. */
  lemma {:induction false} RunFollowsPlan(cfg: Config, plan: seq<int>, vars: map<string, string>, history: seq<string>, shell: Shell)
    ensures FollowsPlan(Run(cfg, plan, vars, history, shell).ran, plan)
    decreases |plan|
  {
    if plan != [] {
      var s := StepOf(cfg, plan[0], vars, history, shell);
      StepNum(cfg, plan[0], vars, history, shell);
      if Continues(s) {
        var o' := Run(cfg, plan[1..], Record(vars, s.ran), history + [s.ran.command], shell);
        RunContinues(cfg, plan, vars, history, shell);
        RunFollowsPlan(cfg, plan[1..], Record(vars, s.ran), history + [s.ran.command], shell);
        FollowsPlanCons(s.ran, o'.ran, plan);
      } else {
        RunHalts(cfg, plan, vars, history, shell);
      }
    }
  }

  lemma StepNum(cfg: Config, n: int, vars: map<string, string>, history: seq<string>, shell: Shell)
    ensures var s := StepOf(cfg, n, vars, history, shell);
            s.Executed? ==> s.ran.num == n
  {
  }

  lemma FirstStep(vars: map<string, string>, history: seq<string>)
    ensures Recorded(vars, []) == vars && history + Commands([]) == history
  {
    assert Commands([]) == [];
  }

  lemma PrefixCons(vars: map<string, string>, history: seq<string>, r: Ran, rest: seq<Ran>, j: nat)
    requires 1 <= j <= |rest|
    ensures ([r] + rest)[j] == rest[j - 1]
    ensures Recorded(vars, ([r] + rest)[..j]) == Recorded(Record(vars, r), rest[..j - 1])
    ensures history + Commands(([r] + rest)[..j]) == history + [r.command] + Commands(rest[..j - 1])
  {
    assert ([r] + rest)[..j] == [r] + rest[..j - 1];
    RecordedCons(vars, r, rest[..j - 1]);
    CommandsCons(r, rest, j - 1);
  }

  /**
   * Command `j` is exactly what step `j` does from the variables and the
   * executor history that the commands before it left: its directive
   * expanded against those variables, handed to the executor.
   */
  lemma {:induction false} RunSteps(cfg: Config, plan: seq<int>, vars: map<string, string>, history: seq<string>, shell: Shell)
    ensures var o := Run(cfg, plan, vars, history, shell);
            forall j :: 0 <= j < |o.ran| ==>
              j < |plan| &&
              StepOf(cfg, plan[j], Recorded(vars, o.ran[..j]), history + Commands(o.ran[..j]), shell) == Executed(o.ran[j])
    decreases |plan|
  {
    var o := Run(cfg, plan, vars, history, shell);
    RunFollowsPlan(cfg, plan, vars, history, shell);
    if plan != [] {
      var s := StepOf(cfg, plan[0], vars, history, shell);
      if Continues(s) {
        var vars' := Record(vars, s.ran);
        var history' := history + [s.ran.command];
        var o' := Run(cfg, plan[1..], vars', history', shell);
        RunContinues(cfg, plan, vars, history, shell);
        RunSteps(cfg, plan[1..], vars', history', shell);
        assert o.ran == [s.ran] + o'.ran;
        forall j | 0 <= j < |o.ran|
          ensures StepOf(cfg, plan[j], Recorded(vars, o.ran[..j]), history + Commands(o.ran[..j]), shell) == Executed(o.ran[j])
        {
          if j == 0 {
            assert o.ran[..0] == [];
            FirstStep(vars, history);
          } else {
            PrefixCons(vars, history, s.ran, o'.ran, j);
            assert plan[j] == plan[1..][j - 1];
          }
        }
      } else {
        RunHalts(cfg, plan, vars, history, shell);
        FirstStep(vars, history);
      }
    }
  }

  /** Every command but the last succeeded. */
  predicate SucceededBeforeLast(ran: seq<Ran>) {
    forall j :: 0 <= j < |ran| - 1 ==> Succeeded(ran[j].reply)
  }

  /** The last command run failed. */
  predicate LastFailed(ran: seq<Ran>) {
    ran != [] && !Succeeded(ran[|ran| - 1].reply)
  }

  lemma SucceededCons(r: Ran, rest: seq<Ran>)
    requires Succeeded(r.reply)
    ensures AllSucceeded([r] + rest) <==> AllSucceeded(rest)
    ensures SucceededBeforeLast(rest) ==> SucceededBeforeLast([r] + rest)
    ensures LastFailed([r] + rest) <==> LastFailed(rest)
    ensures rest != [] ==> ([r] + rest)[|rest|] == rest[|rest| - 1]
  {
    var all := [r] + rest;
    assert forall j :: 0 < j < |all| ==> all[j] == rest[j - 1];
    if AllSucceeded(all) {
      forall j | 0 <= j < |rest| ensures Succeeded(rest[j].reply) {
        assert rest[j] == all[j + 1];
      }
    }
  }

  /**
   * How a loop over `planned` commands may end: every command but the last
   * run succeeded, the loop finished exactly when every planned command ran
   * and succeeded, and the run ends in a failed command exactly when that
   * failure is the one reported.
   */
  predicate StopsAtFirstFailure(o: Outcome, planned: nat) {
    SucceededBeforeLast(o.ran) &&
    (o.stop == Finished <==> |o.ran| == planned && AllSucceeded(o.ran)) &&
    (o.stop.Failed? && o.stop.error.CommandFailed? <==> LastFailed(o.ran)) &&
    (LastFailed(o.ran) ==> o.stop == Failed(o.ran[|o.ran| - 1].num, CommandFailed(o.ran[|o.ran| - 1].reply)))
  }

  lemma StopsAfterSuccess(r: Ran, o: Outcome, planned: nat)
    requires Succeeded(r.reply) && StopsAtFirstFailure(o, planned)
    ensures StopsAtFirstFailure(After([r], o), planned + 1)
  {
    SucceededCons(r, o.ran);
  }

  lemma StopsAtHalt(vars: map<string, string>, n: int, s: Step, planned: nat)
    requires !Continues(s) && planned > 0 && (s.Executed? ==> s.ran.num == n)
    ensures StopsAtFirstFailure(Outcome(vars, Handed(s), Halt(n, s)), planned)
  {
    HaltNotFinished(n, s);
    if s.Executed? {
      assert Handed(s) == [s.ran] && !Succeeded(Handed(s)[0].reply);
    }
  }

  /** The loop stops at the first failure, and reports that failure. */
  lemma {:induction false} RunStopsAtFirstFailure(cfg: Config, plan: seq<int>, vars: map<string, string>, history: seq<string>, shell: Shell)
    ensures StopsAtFirstFailure(Run(cfg, plan, vars, history, shell), |plan|)
    decreases |plan|
  {
    if plan == [] {
      RunDone(cfg, vars, history, shell);
    } else {
      var s := StepOf(cfg, plan[0], vars, history, shell);
      if Continues(s) {
        var vars' := Record(vars, s.ran);
        var history' := history + [s.ran.command];
        RunContinues(cfg, plan, vars, history, shell);
        RunStopsAtFirstFailure(cfg, plan[1..], vars', history', shell);
        StopsAfterSuccess(s.ran, Run(cfg, plan[1..], vars', history', shell), |plan| - 1);
      } else {
        RunHalts(cfg, plan, vars, history, shell);
        StepOfMeaning(cfg, plan[0], vars, history, shell);
        StopsAtHalt(vars, plan[0], s, |plan|);
      }
    }
  }

  lemma HistoryCons(history: seq<string>, r: Ran, rest: seq<Ran>)
    ensures history + Commands([r] + rest) == history + [r.command] + Commands(rest)
  {
    CommandsCons(r, rest, |rest|);
    assert ([r] + rest)[..|rest| + 1] == [r] + rest && rest[..|rest|] == rest;
    assert history + ([r.command] + Commands(rest)) == history + [r.command] + Commands(rest);
  }

  /**
   * An outcome that ends neither at the end of `plan` nor in a failed command
   * was stopped by the next planned step: a missing directive or an expansion
   * error, from the variables and history the commands run left.
   */
  predicate HaltsAtStep(o: Outcome, cfg: Config, plan: seq<int>, vars: map<string, string>, history: seq<string>, shell: Shell) {
    o.stop != Finished && !LastFailed(o.ran) ==>
      |o.ran| < |plan| &&
      var s := StepOf(cfg, plan[|o.ran|], Recorded(vars, o.ran), history + Commands(o.ran), shell);
      !s.Executed? && o.stop == Halt(plan[|o.ran|], s)
  }

  lemma HaltsAtStepCons(o: Outcome, cfg: Config, plan: seq<int>, vars: map<string, string>, history: seq<string>, shell: Shell, r: Ran)
    requires plan != [] && Succeeded(r.reply)
    requires HaltsAtStep(o, cfg, plan[1..], Record(vars, r), history + [r.command], shell)
    ensures HaltsAtStep(After([r], o), cfg, plan, vars, history, shell)
  {
    var o' := After([r], o);
    SucceededCons(r, o.ran);
    if o'.stop != Finished && !LastFailed(o'.ran) {
      var k := |o.ran|;
      RecordedCons(vars, r, o.ran);
      HistoryCons(history, r, o.ran);
      assert o'.ran == [r] + o.ran;
      assert |o'.ran| == k + 1 && plan[k + 1] == plan[1..][k];
      var s := StepOf(cfg, plan[k + 1], Recorded(vars, o'.ran), history + Commands(o'.ran), shell);
      assert s == StepOf(cfg, plan[1..][k], Recorded(Record(vars, r), o.ran), history + [r.command] + Commands(o.ran), shell);
      assert !s.Executed? && o'.stop == Halt(plan[k + 1], s);
    }
  }

  /** The loop's own stop at a step that does not reach the executor. */
  lemma {:induction false} RunHaltsAtStep(cfg: Config, plan: seq<int>, vars: map<string, string>, history: seq<string>, shell: Shell)
    ensures HaltsAtStep(Run(cfg, plan, vars, history, shell), cfg, plan, vars, history, shell)
    decreases |plan|
  {
    if plan == [] {
      RunDone(cfg, vars, history, shell);
    } else {
      var s := StepOf(cfg, plan[0], vars, history, shell);
      if Continues(s) {
        var vars' := Record(vars, s.ran);
        var history' := history + [s.ran.command];
        RunContinues(cfg, plan, vars, history, shell);
        RunHaltsAtStep(cfg, plan[1..], vars', history', shell);
        HaltsAtStepCons(Run(cfg, plan[1..], vars', history', shell), cfg, plan, vars, history, shell, s.ran);
      } else {
        RunHalts(cfg, plan, vars, history, shell);
        FirstStep(vars, history);
        if s.Executed? {
          assert LastFailed(Handed(s));
        }
      }
    }
  }

  /** The variables after the loop are those the commands run recorded, in order. */
  lemma {:induction false} RunRecords(cfg: Config, plan: seq<int>, vars: map<string, string>, history: seq<string>, shell: Shell)
    ensures var o := Run(cfg, plan, vars, history, shell);
            o.vars == Recorded(vars, o.ran)
    decreases |plan|
  {
    if plan == [] {
      RunDone(cfg, vars, history, shell);
    } else {
      var s := StepOf(cfg, plan[0], vars, history, shell);
      if Continues(s) {
        var vars' := Record(vars, s.ran);
        var history' := history + [s.ran.command];
        var o' := Run(cfg, plan[1..], vars', history', shell);
        RunContinues(cfg, plan, vars, history, shell);
        RunRecords(cfg, plan[1..], vars', history', shell);
        RecordedCons(vars, s.ran, o'.ran);
      } else {
        RunHalts(cfg, plan, vars, history, shell);
        FirstStep(vars, history);
        if s.Executed? {
          RecordedCons(vars, s.ran, []);
          assert [s.ran] + [] == Handed(s);
        }
      }
    }
  }

  /** `cmd_%d_output` names one variable per command number. */
  lemma OutputVarInjective(a: int, b: int)
    requires OutputVar(a) == OutputVar(b)
    ensures a == b
  {
    var da, db := Numbers.Decimal(a), Numbers.Decimal(b);
    assert |da| == |db|;
    assert da == OutputVar(a)[4..4 + |da|];
    assert db == OutputVar(b)[4..4 + |db|];
    Numbers.DecimalInjective(a, b);
  }

  /** Command `r` writes variable `key`: it succeeded and `key` is its `cmd_N_output`. */
  predicate Writes(r: Ran, key: string) {
    Succeeded(r.reply) && OutputVar(r.num) == key
  }

  /** The position of the last command in `ran` that writes `key`. */
  function LastWrite(ran: seq<Ran>, key: string): (r: Option<nat>)
    ensures r.Some? ==> r.value < |ran| && Writes(ran[r.value], key)
    ensures r.Some? ==> forall j :: r.value < j < |ran| ==> !Writes(ran[j], key)
    ensures r.None? ==> forall j :: 0 <= j < |ran| ==> !Writes(ran[j], key)
    decreases |ran|
  {
    if ran == [] then None
    else if Writes(ran[|ran| - 1], key) then Some(|ran| - 1)
    else
      var r := LastWrite(ran[..|ran| - 1], key);
      assert forall j :: 0 <= j < |ran| - 1 ==> ran[..|ran| - 1][j] == ran[j];
      r
  }

  lemma {:induction false} RecordedAppend(vars: map<string, string>, ran: seq<Ran>, r: Ran)
    ensures Recorded(vars, ran + [r]) == Record(Recorded(vars, ran), r)
    decreases |ran|
  {
    if ran != [] {
      assert (ran + [r])[1..] == ran[1..] + [r];
      RecordedAppend(Record(vars, ran[0]), ran[1..], r);
    }
  }

  /**
   * After the commands `ran`, variable `key` is the stripped output of the
   * last command that wrote it and otherwise keeps its value before them.
   */
  lemma {:induction false} RecordedLookup(vars: map<string, string>, ran: seq<Ran>, key: string)
    ensures key in Recorded(vars, ran) <==> key in vars || LastWrite(ran, key).Some?
    ensures key in Recorded(vars, ran) ==>
              Recorded(vars, ran)[key] == match LastWrite(ran, key)
                                          case Some(j) => Text.Strip(ran[j].reply.out)
                                          case None => vars[key]
    decreases |ran|
  {
    if ran != [] {
      var init, last := ran[..|ran| - 1], ran[|ran| - 1];
      assert ran == init + [last];
      RecordedAppend(vars, init, last);
      RecordedLookup(vars, init, key);
      if Writes(last, key) {
        assert LastWrite(ran, key) == Some(|ran| - 1);
        RecordWrites(Recorded(vars, init), last, key);
      } else {
        assert LastWrite(ran, key) == LastWrite(init, key);
        RecordOther(Recorded(vars, init), last, key);
        match LastWrite(init, key)
        case Some(j) =>
          assert ran[j] == init[j];
        case None =>
      }
    }
  }

  lemma RecordWrites(m: map<string, string>, r: Ran, key: string)
    requires Writes(r, key)
    ensures key in Record(m, r) && Record(m, r)[key] == Text.Strip(r.reply.out)
  {
  }

  lemma RecordOther(m: map<string, string>, r: Ran, key: string)
    requires !Writes(r, key)
    ensures key in Record(m, r) <==> key in m
    ensures key in m ==> Record(m, r)[key] == m[key]
  {
  }

  /**
   * `cmd_N_output` after the commands `ran` is the stripped output of the
   * last successful run of command `N`, or its value before them when no run
   * of `N` succeeded.
   */
  lemma RecordedOutput(vars: map<string, string>, ran: seq<Ran>, n: int)
    ensures var j := LastWrite(ran, OutputVar(n));
            (j.Some? ==> ran[j.value].num == n && Succeeded(ran[j.value].reply) &&
                         forall i :: j.value < i < |ran| ==> ran[i].num != n || !Succeeded(ran[i].reply)) &&
            (j.None? ==> forall i :: 0 <= i < |ran| ==> ran[i].num != n || !Succeeded(ran[i].reply)) &&
            (OutputVar(n) in Recorded(vars, ran) <==> OutputVar(n) in vars || j.Some?) &&
            (j.Some? ==> Recorded(vars, ran)[OutputVar(n)] == Text.Strip(ran[j.value].reply.out))
  {
    RecordedLookup(vars, ran, OutputVar(n));
    var j := LastWrite(ran, OutputVar(n));
    if j.Some? {
      OutputVarInjective(ran[j.value].num, n);
    }
  }

}
