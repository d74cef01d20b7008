/** The cutover script once more, read as the structured program it is: nested `||` lists, an
    `if` and a loop, instead of a machine.  Every simple command takes one entry of `fates`, which
    says whether it succeeds if it is an external one; the result is the exit code, the trees, and
    the external commands that were issued, in order.  Runs without signals of the machine in
    `Cutover` are exactly the runs of this program. */
module CutoverScript {
  import opened Wrappers
  import opened Cutover

  datatype Command =
    | Stop | Start | Inspect | MoveRootToRollback | MoveSourceToRoot | MoveRollbackToRoot | MoveRootToFailed | RemoveAll

  datatype End = End(code: nat, files: Files, log: seq<Command>)

  /** A `docker` command; without containers it is `:`. */
  function Docker(containers: bool, log: seq<Command>, command: Command): seq<Command> {
    if containers then log + [command] else log
  }

  /** The three tests, each `|| exit 1`, then `stop || exit 1`. */
  function Script(f: Files, c: bool, fates: seq<bool>, log: seq<Command>): Option<End> {
    if |fates| < 1 then None
    else if f.root == None then Some(End(1, f, log))
    else TestSource(f, c, fates[1..], log)
  }

  function TestSource(f: Files, c: bool, fates: seq<bool>, log: seq<Command>): Option<End> {
    if |fates| < 1 then None
    else if f.source == None then Some(End(1, f, log))
    else TestNoRollback(f, c, fates[1..], log)
  }

  function TestNoRollback(f: Files, c: bool, fates: seq<bool>, log: seq<Command>): Option<End> {
    if |fates| < 1 then None
    else if f.rollback != None then Some(End(1, f, log))
    else StopOld(f, c, fates[1..], log)
  }

  function StopOld(f: Files, c: bool, fates: seq<bool>, log: seq<Command>): Option<End> {
    if |fates| < 1 then None
    else if c && !fates[0] then Some(End(1, f, log + [Stop]))
    else SetRootAside(f, c, fates[1..], Docker(c, log, Stop))
  }

  /** `mv root rollback || { start; exit 1; }` */
  function SetRootAside(f: Files, c: bool, fates: seq<bool>, log: seq<Command>): Option<End> {
    if |fates| < 1 then None
    else if fates[0] && f.root != None && f.rollback == None then
      SwapIn(f.(rollback := f.root, root := None), c, fates[1..], log + [MoveRootToRollback])
    else StartAndFail(f, c, fates[1..], log + [MoveRootToRollback])
  }

  /** `mv source root || { mv rollback root; start; exit 1; }` */
  function SwapIn(f: Files, c: bool, fates: seq<bool>, log: seq<Command>): Option<End> {
    if |fates| < 1 then None
    else if fates[0] && f.source != None && f.root == None then
      NewUp(f.(root := f.source, source := None), c, fates[1..], log + [MoveSourceToRoot])
    else MoveBackAndFail(f, c, fates[1..], log + [MoveSourceToRoot])
  }

  function MoveBackAndFail(f: Files, c: bool, fates: seq<bool>, log: seq<Command>): Option<End> {
    if |fates| < 1 then None
    else
      var back := if fates[0] && f.rollback != None && f.root == None then f.(root := f.rollback, rollback := None) else f;
      StartAndFail(back, c, fates[1..], log + [MoveRollbackToRoot])
  }

  function StartAndFail(f: Files, c: bool, fates: seq<bool>, log: seq<Command>): Option<End> {
    if |fates| < 1 then None else Some(End(1, f, Docker(c, log, Start)))
  }

  /** `if ! start || ! healthy=0; attempts=0; while ...; [ healthy -eq 1 ]`: without containers both
      commands are `:` and the list is false. */
  function NewUp(f: Files, c: bool, fates: seq<bool>, log: seq<Command>): Option<End> {
    if |fates| < 1 then None
    else if !c then Keep(f, fates[1..], log)
    else if fates[0] then ResetAndPoll(f, fates[1..], log + [Start])
    else Poll(f, 0, fates[1..], log + [Start])
  }

  function ResetAndPoll(f: Files, fates: seq<bool>, log: seq<Command>): Option<End> {
    if |fates| < 1 then None else Poll(f, 0, fates[1..], log)
  }

  function Poll(f: Files, attempts: nat, fates: seq<bool>, log: seq<Command>): Option<End>
    decreases 12 - attempts
  {
    if |fates| < 1 then None
    else if attempts >= 12 then Judge(f, false, fates[1..], log)
    else if fates[0] then Judge(f, true, fates[1..], log + [Inspect])
    else Poll(f, attempts + 1, fates[1..], log + [Inspect])
  }

  /** The last command of the condition decides: healthy means `then`. */
  function Judge(f: Files, healthy: bool, fates: seq<bool>, log: seq<Command>): Option<End> {
    if |fates| < 1 then None
    else if healthy then RollBack(f, fates[1..], log)
    else Keep(f, fates[1..], log)
  }

  /** `rollback_cutover`, called with containers; success is exit 42, failure exit 43. */
  function RollBack(f: Files, fates: seq<bool>, log: seq<Command>): Option<End> {
    if |fates| < 1 then None else RollBackTests(f, fates[1..], log + [Stop])
  }

  function RollBackTests(f: Files, fates: seq<bool>, log: seq<Command>): Option<End> {
    if |fates| < 1 then None
    else if f.root == None then StartAndReport(f, fates[1..], log)
    else RollBackTests2(f, fates[1..], log)
  }

  function RollBackTests2(f: Files, fates: seq<bool>, log: seq<Command>): Option<End> {
    if |fates| < 1 then None
    else if f.rollback == None then StartAndReport(f, fates[1..], log)
    else RollBackAside(f, fates[1..], log)
  }

  function RollBackAside(f: Files, fates: seq<bool>, log: seq<Command>): Option<End> {
    if |fates| < 1 then None
    else if !fates[0] || f.root == None || (f.failed != None && f.nested != None) then
      Some(End(43, f, log + [MoveRootToFailed]))
    else
      var aside := if f.failed == None then f.(failed := f.root, root := None) else f.(nested := f.root, root := None);
      RollBackMove(aside, fates[1..], log + [MoveRootToFailed])
  }

  function RollBackMove(f: Files, fates: seq<bool>, log: seq<Command>): Option<End> {
    if |fates| < 1 then None
    else if fates[0] && f.rollback != None && f.root == None then
      StartAndReport(f.(root := f.rollback, rollback := None), fates[1..], log + [MoveRollbackToRoot])
    else Some(End(43, f, log + [MoveRollbackToRoot]))
  }

  function StartAndReport(f: Files, fates: seq<bool>, log: seq<Command>): Option<End> {
    if |fates| < 1 then None else Some(End(42, f, log + [Start]))
  }

  /** `trap - ...; rm -rf staging; exit 0` */
  function Keep(f: Files, fates: seq<bool>, log: seq<Command>): Option<End> {
    if |fates| < 2 then None else Some(End(0, Files(f.root, f.rollback, None, None, None), log + [RemoveAll]))
  }

  /******* The machine runs this program *******/

  /** The external command that the machine is about to issue. */
  function CommandAt(s: State): Option<Command> {
    if s.calls != [] then
      match s.calls[0].pc
      case CallStop => if s.containers then Some(Stop) else None
      case MoveRootAside => Some(MoveRootToFailed)
      case MoveRollbackBack => Some(MoveRollbackToRoot)
      case CallStart => if s.containers then Some(Start) else None
      case _ => None
    else
      match s.pc
      case StopContainers => if s.containers then Some(Stop) else None
      case MoveOut => Some(MoveRootToRollback)
      case MoveIn => Some(MoveSourceToRoot)
      case MoveBackOld => Some(MoveRollbackToRoot)
      case RestartOld | RestartAfterMoveBack | StartNew => if s.containers then Some(Start) else None
      case Probe => if s.attempts < 12 then Some(Inspect) else None
      case RemoveStaging => Some(RemoveAll)
      case _ => None
  }

  function Log(s: State): seq<Command> {
    if CommandAt(s).Some? then [CommandAt(s).value] else []
  }

  function Trace(s: State, inputs: seq<Input>): seq<Command>
    decreases |inputs|
  {
    if inputs == [] then [] else Log(s) + Trace(Step(s, inputs[0]), inputs[1..])
  }

  /** Where a run without signals can be, whatever lies where: only the script's own rollback is
      ever called, and with containers only are they probed. */
  predicate Follows(s: State) {
    && s.pc != Killed
    && (s.pc != RollingBack ==> s.calls == [])
    && (s.pc == RollingBack ==> s.containers && |s.calls| == 1 && !s.calls[0].byTrap)
    && (BeforeSwap(s.pc) || s.pc == StartNew ==> s.healthy == None)
    && (s.pc == ResetHealth || s.pc == Probe ==> s.containers && s.healthy != Some(1))
    && (s.pc == TestHealthy ==> s.containers && (s.healthy == Some(1) || s.attempts >= 12))
  }

  /** What remains of the program when the machine is in state `s`. */
  function Rest(s: State, fates: seq<bool>, log: seq<Command>): Option<End>
    requires Follows(s)
  {
    var f, c := s.files, s.containers;
    match s.pc
    case CheckRoot => Script(f, c, fates, log)
    case CheckSource => TestSource(f, c, fates, log)
    case CheckRollback => TestNoRollback(f, c, fates, log)
    case StopContainers => StopOld(f, c, fates, log)
    case MoveOut => SetRootAside(f, c, fates, log)
    case RestartOld => StartAndFail(f, c, fates, log)
    case MoveIn => SwapIn(f, c, fates, log)
    case MoveBackOld => MoveBackAndFail(f, c, fates, log)
    case RestartAfterMoveBack => StartAndFail(f, c, fates, log)
    case StartNew => NewUp(f, c, fates, log)
    case ResetHealth => ResetAndPoll(f, fates, log)
    case Probe => Poll(f, s.attempts, fates, log)
    case TestHealthy => Judge(f, s.healthy == Some(1), fates, log)
    case RollingBack =>
      (match s.calls[0].pc
       case CallStop => RollBack(f, fates, log)
       case TestRoot => RollBackTests(f, fates, log)
       case TestRollback => RollBackTests2(f, fates, log)
       case MoveRootAside => RollBackAside(f, fates, log)
       case MoveRollbackBack => RollBackMove(f, fates, log)
       case CallStart => StartAndReport(f, fates, log))
    case ClearTrap => Keep(f, fates, log)
    case RemoveStaging => if |fates| < 1 then None else Keep(f, [true] + fates, log)
    case Exited(code) => Some(End(code, f, log))
    case Killed => None
  }

  lemma MainStepsAgree(s: State, fates: seq<bool>, log: seq<Command>)
    requires Follows(s) && s.calls == [] && fates != []
    ensures Follows(Step(s, Next(fates[0])))
    ensures Rest(s, fates, log) == Rest(Step(s, Next(fates[0])), fates[1..], log + Log(s))
  {
        if BeforeSwap(s.pc) {
      SwapStepsAgree(s, fates, log);
    } else {
      LaterStepsAgree(s, fates, log);
    }
  }

  lemma SwapStepsAgree(s: State, fates: seq<bool>, log: seq<Command>)
    requires Follows(s) && s.calls == [] && fates != [] && BeforeSwap(s.pc) && Follows(StepMain(s, fates[0]))
    ensures Rest(s, fates, log) == Rest(StepMain(s, fates[0]), fates[1..], log + Log(s))
  {
    assert log + [] == log;
  }

  lemma LaterStepsAgree(s: State, fates: seq<bool>, log: seq<Command>)
    requires Follows(s) && s.calls == [] && fates != [] && !BeforeSwap(s.pc) && Follows(StepMain(s, fates[0]))
    ensures Rest(s, fates, log) == Rest(StepMain(s, fates[0]), fates[1..], log + Log(s))
  {
    assert log + [] == log;
  }

  lemma CallStepsAgree(s: State, fates: seq<bool>, log: seq<Command>)
    requires Follows(s) && s.calls != [] && fates != []
    ensures Follows(Step(s, Next(fates[0])))
    ensures Rest(s, fates, log) == Rest(Step(s, Next(fates[0])), fates[1..], log + Log(s))
  {
    assert log + [] == log;
  }

  function Fates(inputs: seq<Input>): seq<bool>
    requires SignalFree(inputs)
  {
    seq(|inputs|, i requires 0 <= i < |inputs| => inputs[i].ok)
  }

  lemma {:induction false} RunsAgree(s: State, inputs: seq<Input>, log: seq<Command>)
    requires Follows(s) && SignalFree(inputs)
    ensures Follows(Run(s, inputs))
    ensures Rest(s, Fates(inputs), log) == Rest(Run(s, inputs), [], log + Trace(s, inputs))
    decreases |inputs|
  {
    if inputs == [] {
      assert log + Trace(s, inputs) == log && Fates(inputs) == [];
    } else {
      var t := Step(s, inputs[0]);
      StepsAgree(s, inputs, log);
      RunsAgree(t, inputs[1..], log + Log(s));
      assert (log + Log(s)) + Trace(t, inputs[1..]) == log + (Log(s) + Trace(t, inputs[1..]));
    }
  }

  lemma StepsAgree(s: State, inputs: seq<Input>, log: seq<Command>)
    requires Follows(s) && SignalFree(inputs) && inputs != []
    ensures var t := Step(s, inputs[0]);
      Follows(t) && SignalFree(inputs[1..]) && Rest(s, Fates(inputs), log) == Rest(t, Fates(inputs[1..]), log + Log(s))
  {
    var fates := Fates(inputs);
    assert inputs[0] == Next(fates[0]) && fates[1..] == Fates(inputs[1..]);
    if s.calls == [] {
      MainStepsAgree(s, fates, log);
    } else {
      CallStepsAgree(s, fates, log);
    }
  }

  /** For every run without signals, whatever there is at the places when it starts: the machine
      exits exactly when the program does, with the same code, the same trees, and the same
      external commands issued in the same order. */
  lemma MachineIsScript(s: State, inputs: seq<Input>)
    requires Starting(s) && SignalFree(inputs)
    ensures var t, end := Run(s, inputs), Script(s.files, s.containers, Fates(inputs), []);
      && (t.pc.Exited? <==> end.Some?)
      && (t.pc.Exited? ==> end == Some(End(t.pc.code, t.files, Trace(s, inputs))))
  {
    RunsAgree(s, inputs, []);
    var t := Run(s, inputs);
    assert [] + Trace(s, inputs) == Trace(s, inputs);
    assert t.pc != Killed;
    NothingWithoutFates(t, Trace(s, inputs));
  }

  lemma NothingWithoutFates(s: State, log: seq<Command>)
    requires Follows(s)
    ensures Rest(s, [], log).Some? <==> s.pc.Exited?
  {
  }

  /******* Consequences *******/

  /** A run that gives up puts the original back, unless the `mv` that does so fails. */
  lemma FailureMovesBack(s: State, inputs: seq<Input>)
    requires Initial(s) && SignalFree(inputs) && Run(s, inputs).pc == Exited(1)
    ensures Run(s, inputs).files.root == Some(Original) || TakenAt(s, inputs, MoveBackOld)
  {
    QuietRun(s, inputs);
    BackOrFailed(s, inputs);
  }

  /** The run contains a command that failed at `pc`. */
  predicate TakenAt(s: State, inputs: seq<Input>, pc: Pc)
    decreases |inputs|
  {
    inputs != [] && ((s.pc == pc && s.calls == [] && inputs[0] == Next(false)) || TakenAt(Step(s, inputs[0]), inputs[1..], pc))
  }

  lemma {:induction false} BackOrFailed(s: State, inputs: seq<Input>)
    requires Quiet(s) && SignalFree(inputs) && Run(s, inputs).pc == Exited(1)
    requires s.pc == RestartAfterMoveBack || s.pc.Exited? ==> s.files.root == Some(Original)
    ensures Run(s, inputs).files.root == Some(Original) || TakenAt(s, inputs, MoveBackOld)
    decreases |inputs|
  {
    if inputs != [] {
      if s.calls == [] {
        QuietMain(s, inputs[0].ok);
      } else {
        QuietCall(s, inputs[0].ok);
      }
      var t := Step(s, inputs[0]);
      if t.pc.Exited? && t.pc != Exited(1) {
        StaysExited(t, inputs[1..]);
      } else if !(s.pc == MoveBackOld && s.calls == [] && inputs[0] == Next(false)) {
        BackOrFailed(t, inputs[1..]);
      }
    }
  }

  lemma {:induction false} StaysExited(s: State, inputs: seq<Input>)
    requires Quiet(s) && s.pc.Exited? && SignalFree(inputs)
    ensures Run(s, inputs) == s
    decreases |inputs|
  {
    if inputs != [] {
      StaysExited(Step(s, inputs[0]), inputs[1..]);
    }
  }

  /** Whether the last of the containers' `stop` and `start` commands was a `start`, or there was
      none. */
  predicate Running(log: seq<Command>)
    decreases |log|
  {
    log == [] || (if log[|log| - 1] == Stop then false
                  else log[|log| - 1] == Start || Running(log[..|log| - 1]))
  }

  lemma RunningAfter(log: seq<Command>, command: Command)
    ensures Running(log + [command]) == if command == Stop then false else command == Start || Running(log)
  {
    assert (log + [command])[..|log|] == log;
  }

  lemma RollBackRuns(f: Files, fates: seq<bool>, log: seq<Command>)
    ensures var end := RollBack(f, fates, log); end.Some? ==>
      end.value.code in {42, 43} && (Running(end.value.log) <==> end.value.code == 42)
  {
    var l1 := log + [Stop];
    RunningAfter(log, Stop);
    RunningAfter(l1, Start);
    RunningAfter(l1, MoveRootToFailed);
    RunningAfter(l1 + [MoveRootToFailed], MoveRollbackToRoot);
    RunningAfter(l1 + [MoveRootToFailed] + [MoveRollbackToRoot], Start);
  }

  lemma JudgeRuns(f: Files, healthy: bool, fates: seq<bool>, log: seq<Command>)
    requires Running(log)
    ensures var end := Judge(f, healthy, fates, log); end.Some? ==>
      end.value.code in {0, 42, 43} && (Running(end.value.log) <==> end.value.code != 43)
  {
    if |fates| >= 1 {
      RollBackRuns(f, fates[1..], log);
      RunningAfter(log, RemoveAll);
    }
  }

  lemma {:induction false} PollRuns(f: Files, attempts: nat, fates: seq<bool>, log: seq<Command>)
    requires Running(log)
    ensures var end := Poll(f, attempts, fates, log); end.Some? ==>
      end.value.code in {0, 42, 43} && (Running(end.value.log) <==> end.value.code != 43)
    decreases 12 - attempts
  {
    RunningAfter(log, Inspect);
    if |fates| >= 1 {
      JudgeRuns(f, false, fates[1..], log);
      JudgeRuns(f, true, fates[1..], log + [Inspect]);
      if attempts < 12 {
        PollRuns(f, attempts + 1, fates[1..], log + [Inspect]);
      }
    }
  }

  lemma NewUpRuns(f: Files, fates: seq<bool>, log: seq<Command>)
    ensures var end := NewUp(f, true, fates, log); end.Some? ==>
      end.value.code in {0, 42, 43} && (Running(end.value.log) <==> end.value.code != 43)
  {
    RunningAfter(log, Start);
    if |fates| >= 1 {
      PollRuns(f, 0, fates[1..], log + [Start]);
      if |fates| >= 2 {
        PollRuns(f, 0, fates[2..], log + [Start]);
      }
    }
  }

  lemma SwapRuns(f: Files, fates: seq<bool>, log: seq<Command>)
    ensures var end := SetRootAside(f, true, fates, log); end.Some? ==> (Running(end.value.log) <==> end.value.code != 43)
  {
    var l1 := log + [MoveRootToRollback];
    var l2 := l1 + [MoveSourceToRoot];
    RunningAfter(l1, Start);
    RunningAfter(l2 + [MoveRollbackToRoot], Start);
    if |fates| >= 2 {
      NewUpRuns(f.(rollback := f.root, root := f.source, source := None), fates[2..], l2);
    }
  }

  /** The containers are left stopped, without so much as an attempt to start them, exactly when the
      script exits 43 or when its very first `stop` failed. */
  lemma ContainersAreRestarted(s: State, inputs: seq<Input>)
    requires Initial(s) && s.containers && SignalFree(inputs) && Run(s, inputs).pc.Exited?
    ensures Running(Trace(s, inputs)) <==> Run(s, inputs).pc.code != 43 && Trace(s, inputs) != [Stop]
  {
    MachineIsScript(s, inputs);
    var fates := Fates(inputs);
    RunningAfter([], Stop);
    if |fates| >= 4 {
      SwapRuns(s.files, fates[4..], [Stop]);
    }
    var end := Script(s.files, true, fates, []);
    ScriptFromStop(s.files, fates);
    assert end.value.log == Trace(s, inputs);
  }

  /** With both trees in place and no rollback, the tests lead to the first `stop`. */
  lemma ScriptFromStop(f: Files, fates: seq<bool>)
    requires f.root != None && f.source != None && f.rollback == None
    ensures Script(f, true, fates, []) ==
      if |fates| < 4 then None
      else if !fates[3] then Some(End(1, f, [Stop]))
      else SetRootAside(f, true, fates[4..], [Stop])
  {
    if |fates| >= 3 {
      assert fates[1..][1..] == fates[2..] && fates[2..][1..] == fates[3..];
      if |fates| >= 4 {
        assert fates[3..][1..] == fates[4..] && fates[3..][0] == fates[3];
      }
    }
    assert [] + [Stop] == [Stop];
  }
}
