/** The remote cutover script: the shell text that swaps a restored tree in for a live one,
    as a machine that executes one command at a time.

    Every external command may fail, and a signal may arrive between any two commands; its
    trap runs `rollback_cutover` and then the script goes on, because the trap does not exit
    (Shell Command Language, sections 2.9.2 to 2.9.4 and 2.14). */
module Cutover {
  import opened Wrappers

  datatype Tree = Original | Replacement

  /** The places the script moves trees between.  `source` and `failed` are inside the staging
      directory; `nested` is a tree that `mv` put inside an already existing `failed`. */
  datatype Files = Files(
    root: Option<Tree>, rollback: Option<Tree>, source: Option<Tree>, failed: Option<Tree>, nested: Option<Tree>)

  datatype Pc =
    | CheckRoot | CheckSource | CheckRollback | StopContainers
    | MoveOut | RestartOld
    | MoveIn | MoveBackOld | RestartAfterMoveBack
    | StartNew | ResetHealth | Probe | TestHealthy
    | RollingBack
    | ClearTrap | RemoveStaging
    | Exited(code: nat)
    | Killed

  /** Commands of one call of `rollback_cutover`. */
  datatype CallPc = CallStop | TestRoot | TestRollback | MoveRootAside | MoveRollbackBack | CallStart

  /** An active call: made by the trap, or by the script itself in its rollback branch. */
  datatype Call = Call(pc: CallPc, byTrap: bool)

  /** `calls[0]` is the innermost active call. */
  datatype State = State(
    files: Files, pc: Pc, calls: seq<Call>, containers: bool, attempts: nat, healthy: Option<nat>)

  /** The next command runs, and succeeds or fails if it is an external one; or a signal comes. */
  datatype Input = Next(ok: bool) | Signal

  /******* Moves *******/

  function MovedOut(f: Files, ok: bool): (Files, bool) {
    if ok && f.root.Some? && f.rollback.None? then (f.(root := None, rollback := f.root), true) else (f, false)
  }

  function MovedIn(f: Files, ok: bool): (Files, bool) {
    if ok && f.source.Some? && f.root.None? then (f.(source := None, root := f.source), true) else (f, false)
  }

  function MovedRollbackBack(f: Files, ok: bool): (Files, bool) {
    if ok && f.rollback.Some? && f.root.None? then (f.(rollback := None, root := f.rollback), true) else (f, false)
  }

  /** `mv -- "$root" "$failed"`: an existing directory `failed` takes the tree inside it. */
  function MovedAside(f: Files, ok: bool): (Files, bool) {
    if !ok || f.root.None? then (f, false)
    else if f.failed.None? then (f.(root := None, failed := f.root), true)
    else if f.nested.None? then (f.(root := None, nested := f.root), true)
    else (f, false)
  }

  /******* One step *******/

  predicate TrapActive(s: State) {
    !s.pc.Exited? && s.pc != RemoveStaging && s.pc != Killed
  }

  /** A call of `rollback_cutover` returns; only the script's own call looks at the status. */
  function Return(s: State, status: bool): State
    requires s.calls != []
  {
    if s.calls[0].byTrap then s.(calls := s.calls[1..])
    else s.(calls := s.calls[1..], pc := Exited(if status then 42 else 43))
  }

  function StepCall(s: State, ok: bool): State
    requires s.calls != []
  {
    var c := s.calls[0];
    match c.pc
    case CallStop => Goto(s, TestRoot)
    case TestRoot => Goto(s, if s.files.root.Some? then TestRollback else CallStart)
    case TestRollback => Goto(s, if s.files.rollback.Some? then MoveRootAside else CallStart)
    case MoveRootAside =>
      var (f, moved) := MovedAside(s.files, ok);
      if moved then Goto(s.(files := f), MoveRollbackBack) else Return(s, false)
    case MoveRollbackBack =>
      var (f, moved) := MovedRollbackBack(s.files, ok);
      if moved then Goto(s.(files := f), CallStart) else Return(s, false)
    case CallStart => Return(s, true)
  }

  function Goto(s: State, pc: CallPc): State
    requires s.calls != []
  {
    s.(calls := [s.calls[0].(pc := pc)] + s.calls[1..])
  }

  function StepMain(s: State, ok: bool): State {
    match s.pc
    case CheckRoot => s.(pc := if s.files.root.Some? then CheckSource else Exited(1))
    case CheckSource => s.(pc := if s.files.source.Some? then CheckRollback else Exited(1))
    case CheckRollback => s.(pc := if s.files.rollback.None? then StopContainers else Exited(1))
    case StopContainers => s.(pc := if ok || !s.containers then MoveOut else Exited(1))
    case MoveOut =>
      var (f, moved) := MovedOut(s.files, ok);
      s.(files := f, pc := if moved then MoveIn else RestartOld)
    case RestartOld => s.(pc := Exited(1))
    case MoveIn =>
      var (f, moved) := MovedIn(s.files, ok);
      s.(files := f, pc := if moved then StartNew else MoveBackOld)
    case MoveBackOld => s.(files := MovedRollbackBack(s.files, ok).0, pc := RestartAfterMoveBack)
    case RestartAfterMoveBack => s.(pc := Exited(1))
    // The condition of the `if`.  Without containers it is `! : || ! :`.  With containers the
    // list separators end the `||` chain after `healthy=0`, and the status of the whole
    // condition is that of its last command, `[ "$healthy" -eq 1 ]`.
    case StartNew =>
      if !s.containers then s.(pc := ClearTrap)
      else if ok then s.(pc := ResetHealth)
      else s.(pc := Probe, attempts := 0)
    case ResetHealth => s.(pc := Probe, healthy := Some(0), attempts := 0)
    case Probe =>
      if s.attempts >= 12 then s.(pc := TestHealthy)
      else if ok then s.(pc := TestHealthy, healthy := Some(1))
      else s.(attempts := s.attempts + 1)
    case TestHealthy =>
      if s.healthy == Some(1) then s.(pc := RollingBack, calls := [Call(CallStop, false)] + s.calls)
      else s.(pc := ClearTrap)
    case RollingBack => s
    case ClearTrap => s.(pc := RemoveStaging)
    case RemoveStaging => s.(files := s.files.(source := None, failed := None, nested := None), pc := Exited(0))
    case Exited(_) => s
    case Killed => s
  }

  function Step(s: State, input: Input): State {
    match input
    case Signal =>
      if !TrapActive(s) then (if s.pc == RemoveStaging then s.(pc := Killed) else s)
      else s.(calls := [Call(CallStop, true)] + s.calls)
    case Next(ok) => if s.calls != [] then StepCall(s, ok) else StepMain(s, ok)
  }

  function Run(s: State, inputs: seq<Input>): State
    decreases |inputs|
  {
    if inputs == [] then s else Run(Step(s, inputs[0]), inputs[1..])
  }

  /** The trap is set, and whatever there may be is at root, rollback and under staging. */
  predicate Starting(s: State) { s.pc == CheckRoot && s.calls == [] && s.healthy == None && s.attempts == 0 }

  /** The script starts so, with the live tree at root and the restored one staged. */
  predicate Initial(s: State) {
    && Starting(s)
    && s.files == Files(Some(Original), None, Some(Replacement), None, None)
  }

  /******* Safety *******/

  /** The original tree is at exactly one of `root` and `rollback`, and not under staging. */
  predicate OriginalIsSafe(f: Files) {
    && (f.root == Some(Original) <==> f.rollback != Some(Original))
    && f.source != Some(Original) && f.failed != Some(Original) && f.nested != Some(Original)
  }

  /** A signal taken between the tests of `root` and `rollback` and the `mv` they guard. */
  predicate InWindow(s: State, input: Input) {
    input.Signal? && s.calls != [] && s.calls[0].pc == MoveRootAside && s.files.root.Some?
  }

  function F(root: Option<Tree>, rollback: Option<Tree>, source: Option<Tree>, failed: Option<Tree>): Files {
    Files(root, rollback, source, failed, None)
  }

  /** The shapes the script goes through, in order. */
  predicate Untouched(f: Files) { f == F(Some(Original), None, Some(Replacement), None) }
  predicate SetAside(f: Files) { f == F(None, Some(Original), Some(Replacement), None) }
  predicate SwappedIn(f: Files) { f == F(Some(Replacement), Some(Original), None, None) }
  predicate HalfBack(f: Files) { f == F(None, Some(Original), None, Some(Replacement)) }
  predicate RolledBack(f: Files) { f == F(Some(Original), None, None, Some(Replacement)) }

  /** After the swap, with or without trap calls in between. */
  predicate AfterSwap(f: Files) { SwappedIn(f) || HalfBack(f) || RolledBack(f) }

  predicate FilesFit(s: State) {
    match s.pc
    case CheckRoot | CheckSource | CheckRollback | StopContainers | MoveOut | RestartOld => Untouched(s.files)
    case MoveIn | MoveBackOld => SetAside(s.files)
    case RestartAfterMoveBack => Untouched(s.files) || SetAside(s.files)
    case StartNew | ResetHealth | Probe | TestHealthy | RollingBack | ClearTrap | RemoveStaging => AfterSwap(s.files)
    case Exited(_) | Killed => OriginalIsSafe(s.files)
  }

  predicate CallsFit(s: State) {
    && (s.pc.Exited? || s.pc == Killed || s.pc == RemoveStaging ==> s.calls == [])
    && (s.pc == RollingBack ==> s.calls != [] && !s.calls[|s.calls| - 1].byTrap)
    && (forall i | 0 <= i < |s.calls| :: s.calls[i].byTrap || (s.pc == RollingBack && i == |s.calls| - 1))
    && (forall i | 0 <= i < |s.calls| :: PositionFits(s, i))
  }

  /** A call that will not reach a `mv` while nothing is at `root`. */
  predicate Harmless(c: Call) { c.pc == CallStop || c.pc == TestRoot || c.pc == CallStart }

  predicate OnlyHarmlessInside(s: State, i: nat)
    requires i <= |s.calls|
  {
    s.files.root.None? && forall j | 0 <= j < i :: Harmless(s.calls[j])
  }

  predicate PositionFits(s: State, i: nat)
    requires i < |s.calls|
  {
    match s.calls[i].pc
    case MoveRootAside => (i == 0 && SwappedIn(s.files)) || OnlyHarmlessInside(s, i)
    case MoveRollbackBack => HalfBack(s.files) && OnlyHarmlessInside(s, i)
    case _ => true
  }

  predicate Inv(s: State) { FilesFit(s) && CallsFit(s) }

  lemma InvIsSafe(s: State)
    requires Inv(s)
    ensures OriginalIsSafe(s.files)
  {
  }

  lemma SignalKeepsInv(s: State)
    requires Inv(s) && !InWindow(s, Signal)
    ensures Inv(Step(s, Signal))
  {
    var t := Step(s, Signal);
    if TrapActive(s) {
      assert forall i | 1 <= i < |t.calls| :: t.calls[i] == s.calls[i - 1];
      forall i | 1 <= i < |t.calls| ensures PositionFits(t, i) {
        assert PositionFits(s, i - 1);
        assert forall j | 1 <= j < i :: t.calls[j] == s.calls[j - 1];
      }
    }
  }

  /** Up to the swap and the three ways it can fail. */
  predicate BeforeSwap(pc: Pc) {
    pc in {CheckRoot, CheckSource, CheckRollback, StopContainers, MoveOut, RestartOld, MoveIn, MoveBackOld, RestartAfterMoveBack}
  }

  lemma BeforeSwapKeepsInv(s: State, ok: bool)
    requires Inv(s) && s.calls == [] && BeforeSwap(s.pc)
    ensures Inv(StepMain(s, ok))
  {
  }

  lemma AfterSwapKeepsInv(s: State, ok: bool)
    requires Inv(s) && s.calls == [] && !BeforeSwap(s.pc)
    ensures Inv(StepMain(s, ok))
  {
  }

  lemma MainKeepsInv(s: State, ok: bool)
    requires Inv(s) && s.calls == []
    ensures Inv(StepMain(s, ok))
  {
    if BeforeSwap(s.pc) {
      BeforeSwapKeepsInv(s, ok);
    } else {
      AfterSwapKeepsInv(s, ok);
    }
  }

  /** Going on within the innermost call without moving anything. */
  lemma GotoKeepsInv(s: State, pc: CallPc)
    requires Inv(s) && s.calls != []
    requires pc == MoveRootAside ==> SwappedIn(s.files) || s.files.root.None?
    requires pc != MoveRollbackBack
    requires s.files.root.None? && Harmless(s.calls[0]) ==> Harmless(s.calls[0].(pc := pc))
    ensures Inv(Goto(s, pc))
  {
    var t := Goto(s, pc);
    assert forall i | 1 <= i < |t.calls| :: t.calls[i] == s.calls[i];
    forall i | 0 <= i < |t.calls| ensures PositionFits(t, i) {
      if i > 0 {
        assert PositionFits(s, i);
        assert OnlyHarmlessInside(s, i) ==> Harmless(s.calls[0]);
      }
    }
  }

  /** The two moves of a rollback, when they succeed. */
  lemma MoveKeepsInv(s: State, f: Files, pc: CallPc)
    requires Inv(s) && s.calls != []
    requires (s.calls[0].pc == MoveRootAside && SwappedIn(s.files) && HalfBack(f) && pc == MoveRollbackBack)
      || (s.calls[0].pc == MoveRollbackBack && HalfBack(s.files) && RolledBack(f) && pc == CallStart)
    ensures Inv(Goto(s.(files := f), pc))
  {
    var t := Goto(s.(files := f), pc);
    assert forall i | 1 <= i < |t.calls| :: t.calls[i] == s.calls[i];
    forall i | 1 <= i < |t.calls| ensures PositionFits(t, i) {
      NoMoveBelow(s, i);
    }
  }

  /** Under a call that is at one of its moves, no other call is. */
  lemma NoMoveBelow(s: State, i: nat)
    requires CallsFit(s) && 1 <= i < |s.calls| && !Harmless(s.calls[0])
    ensures s.calls[i].pc != MoveRootAside && s.calls[i].pc != MoveRollbackBack
  {
    assert PositionFits(s, i);
  }

  lemma ReturnKeepsInv(s: State, status: bool)
    requires Inv(s) && s.calls != []
    ensures Inv(Return(s, status))
  {
    InvIsSafe(s);
    var t := Return(s, status);
    assert forall i | 0 <= i < |t.calls| :: t.calls[i] == s.calls[i + 1];
    forall i | 0 <= i < |t.calls| ensures PositionFits(t, i) {
      assert PositionFits(s, i + 1);
      assert forall j | 0 <= j < i :: t.calls[j] == s.calls[j + 1];
    }
  }

  lemma CallKeepsInv(s: State, ok: bool)
    requires Inv(s) && s.calls != []
    ensures Inv(StepCall(s, ok))
  {
    InvIsSafe(s);
    assert PositionFits(s, 0);
    match s.calls[0].pc
    case CallStop => GotoKeepsInv(s, TestRoot);
    case TestRoot => GotoKeepsInv(s, if s.files.root.Some? then TestRollback else CallStart);
    case TestRollback => GotoKeepsInv(s, if s.files.rollback.Some? then MoveRootAside else CallStart);
    case MoveRootAside =>
      var (f, moved) := MovedAside(s.files, ok);
      if moved {
        MoveKeepsInv(s, f, MoveRollbackBack);
      } else {
        ReturnKeepsInv(s, false);
      }
    case MoveRollbackBack =>
      var (f, moved) := MovedRollbackBack(s.files, ok);
      if moved {
        MoveKeepsInv(s, f, CallStart);
      } else {
        ReturnKeepsInv(s, false);
      }
    case CallStart => ReturnKeepsInv(s, true);
  }

  /******* Whole runs *******/

  predicate NoSignalInWindow(s: State, inputs: seq<Input>)
    decreases |inputs|
  {
    inputs == [] || (!InWindow(s, inputs[0]) && NoSignalInWindow(Step(s, inputs[0]), inputs[1..]))
  }

  lemma {:induction false} RunKeepsInv(s: State, inputs: seq<Input>)
    requires Inv(s) && NoSignalInWindow(s, inputs)
    ensures Inv(Run(s, inputs))
    decreases |inputs|
  {
    if inputs != [] {
      if inputs[0].Signal? {
        SignalKeepsInv(s);
      } else if s.calls != [] {
        CallKeepsInv(s, inputs[0].ok);
      } else {
        MainKeepsInv(s, inputs[0].ok);
      }
      RunKeepsInv(Step(s, inputs[0]), inputs[1..]);
    }
  }

  /** The cutover never loses the original tree: whatever commands fail and whenever signals
      come, outside the one window, it is at exactly one of `root` and `rollback`. */
  lemma OriginalIsNeverLost(s: State, inputs: seq<Input>)
    requires Initial(s) && NoSignalInWindow(s, inputs)
    ensures OriginalIsSafe(Run(s, inputs).files)
  {
    RunKeepsInv(s, inputs);
    InvIsSafe(Run(s, inputs));
  }

  /** A signal in the window is not harmless: from any state the script can be in, if the
      commands that follow succeed, the original ends up under staging. */
  lemma SignalInWindowMisplacesOriginal(s: State)
    requires Inv(s) && InWindow(s, Signal)
    ensures var inputs := [Signal] + Forward(7);
      Run(s, inputs).files.nested == Some(Original) && !OriginalIsSafe(Run(s, inputs).files)
  {
    assert PositionFits(s, 0) && SwappedIn(s.files) && TrapActive(s);
    var s1 := Step(s, Signal);
    assert ([Signal] + Forward(7))[1..] == Forward(7);
    assert s1.calls[1..] == s.calls;
    TrapRollsBack(s1, s.calls, 1);
    var s7 := s.(files := F(Some(Original), None, None, Some(Replacement)));
    Forth(s7, StepCall(s7, true), 0);
    NoneToCome(StepCall(s7, true), 0);
  }

  /** The window is exact.  Wherever a run may stand, a signal leaves the original safe in every
      continuation that keeps clear of the window if and only if it comes outside the window. */
  lemma SafeExactlyOutsideWindow(s: State, inputs: seq<Input>)
    requires Initial(s) && NoSignalInWindow(s, inputs)
    ensures var w := Run(s, inputs);
      !InWindow(w, Signal) <==>
        forall more | NoSignalInWindow(Step(w, Signal), more) :: OriginalIsSafe(Run(Step(w, Signal), more).files)
  {
    var w := Run(s, inputs);
    RunKeepsInv(s, inputs);
    if InWindow(w, Signal) {
      SignalInWindowMisplacesOriginal(w);
      RunSignal(w, Forward(7));
      ForwardAvoidsWindow(Step(w, Signal), 7);
    } else {
      SignalKeepsInv(w);
      forall more | NoSignalInWindow(Step(w, Signal), more)
        ensures OriginalIsSafe(Run(Step(w, Signal), more).files)
      {
        RunKeepsInv(Step(w, Signal), more);
        InvIsSafe(Run(Step(w, Signal), more));
      }
    }
  }

  lemma {:induction false} ForwardAvoidsWindow(s: State, n: nat)
    ensures NoSignalInWindow(s, Forward(n))
    decreases n
  {
    if n > 0 {
      assert Forward(n)[1..] == Forward(n - 1);
      ForwardAvoidsWindow(Step(s, Next(true)), n - 1);
    }
  }

  /** An undisturbed trap call puts the original back at `root`. */
  lemma TrapRollsBack(s: State, below: seq<Call>, n: nat)
    requires s.calls == [Call(CallStop, true)] + below && SwappedIn(s.files)
    ensures Run(s, Forward(n + 6)) ==
      Run(s.(calls := below, files := F(Some(Original), None, None, Some(Replacement))), Forward(n))
  {
    TrapReachesTheMove(s, below, n + 3);
    TrapMovesBack(s.(calls := [Call(MoveRootAside, true)] + below), below, n);
  }

  lemma TrapReachesTheMove(s: State, below: seq<Call>, n: nat)
    requires s.calls == [Call(CallStop, true)] + below && SwappedIn(s.files)
    ensures Run(s, Forward(n + 3)) == Run(s.(calls := [Call(MoveRootAside, true)] + below), Forward(n))
  {
    var s2 := s.(calls := [Call(TestRoot, true)] + below);
    var s3 := s.(calls := [Call(TestRollback, true)] + below);
    ThreeForth(s, s2,
      s3, s.(calls := [Call(MoveRootAside, true)] + below), n);
  }

  lemma TrapMovesBack(s: State, below: seq<Call>, n: nat)
    requires s.calls == [Call(MoveRootAside, true)] + below && SwappedIn(s.files)
    ensures Run(s, Forward(n + 3)) ==
      Run(s.(calls := below, files := F(Some(Original), None, None, Some(Replacement))), Forward(n))
  {
    var s5 := s.(calls := [Call(MoveRollbackBack, true)] + below, files := F(None, Some(Original), None, Some(Replacement)));
    var s6 := s.(calls := [Call(CallStart, true)] + below, files := F(Some(Original), None, None, Some(Replacement)));
    ThreeForth(s, s5,
      s6, s6.(calls := below), n);
  }

  /** One command forward, to a known state; `n` more are to come. */
  lemma Forth(s: State, t: State, n: nat)
    requires Step(s, Next(true)) == t
    ensures Run(s, Forward(n + 1)) == Run(t, Forward(n))
  {
    RunForward(s, n + 1);
  }

  lemma ThreeForth(s: State, t: State, u: State, v: State, n: nat)
    requires Step(s, Next(true)) == t && Step(t, Next(true)) == u && Step(u, Next(true)) == v
    ensures Run(s, Forward(n + 3)) == Run(v, Forward(n))
  {
    Forth(s, t, n + 2);
    Forth(t, u, n + 1);
    Forth(u, v, n);
  }

  lemma NoneToCome(s: State, n: nat)
    requires n == 0
    ensures Run(s, Forward(n)) == s
  {
    assert Forward(n) == [];
  }

  /** The next `n` commands run and succeed. */
  function Forward(n: nat): seq<Input> { seq(n, _ => Next(true)) }

  lemma RunForward(s: State, n: nat)
    requires n > 0
    ensures Run(s, Forward(n)) == Run(Step(s, Next(true)), Forward(n - 1))
  {
    assert Forward(n)[1..] == Forward(n - 1);
  }

  /******* One undisturbed trap *******/

  /** A signal does not end the script.  After the swap its trap puts the original back and the
      script goes on with the command it was at, with the files under its feet exchanged. */
  lemma TrapThenGoesOn(s: State)
    requires SwappedIn(s.files) && s.pc in {StartNew, ResetHealth, Probe, TestHealthy, ClearTrap}
    ensures Run(s, [Signal] + Forward(6)) == s.(files := F(Some(Original), None, None, Some(Replacement)))
  {
    RunSignal(s, Forward(6));
    TrapRollsBack(s.(calls := [Call(CallStop, true)] + s.calls), s.calls, 0);
    NoneToCome(s.(files := F(Some(Original), None, None, Some(Replacement))), 0);
  }

  /** Before the swap it changes nothing. */
  lemma TrapWhileUntouched(s: State)
    requires Untouched(s.files) && BeforeSwap(s.pc)
    ensures Run(s, [Signal] + Forward(4)) == s
  {
    var below := s.calls;
    var s3, s4 := s.(calls := [Call(TestRollback, true)] + below), s.(calls := [Call(CallStart, true)] + below);
    TrapTestsRoot(s, 2);
    Forth(s3, s4, 1);
    Forth(s4, s, 0);
    NoneToCome(s, 0);
  }

  lemma TrapWhileSetAside(s: State)
    requires SetAside(s.files) && BeforeSwap(s.pc)
    ensures Run(s, [Signal] + Forward(3)) == s
  {
    TrapTestsRoot(s, 1);
    Forth(s.(calls := [Call(CallStart, true)] + s.calls), s, 0);
    NoneToCome(s, 0);
  }

  lemma TrapTestsRoot(s: State, n: nat)
    requires BeforeSwap(s.pc)
    ensures Run(s, [Signal] + Forward(n + 2)) ==
      Run(s.(calls := [Call(if s.files.root.Some? then TestRollback else CallStart, true)] + s.calls), Forward(n))
  {
    var s1, s2 := s.(calls := [Call(CallStop, true)] + s.calls), s.(calls := [Call(TestRoot, true)] + s.calls);
    RunSignal(s, Forward(n + 2));
    Forth(s1, s2, n + 1);
    Forth(s2, s.(calls := [Call(if s.files.root.Some? then TestRollback else CallStart, true)] + s.calls), n);
  }

  /** Once the trap is cleared a signal ends the script for good, before anything is removed. */
  lemma SignalAfterTrapKills(s: State, more: seq<Input>)
    requires s.pc == RemoveStaging && s.calls == []
    ensures Run(s, [Signal] + more) == s.(pc := Killed)
  {
    RunSignal(s, more);
    KilledForGood(s.(pc := Killed), more);
  }

  lemma {:induction false} KilledForGood(s: State, inputs: seq<Input>)
    requires s.pc == Killed && s.calls == []
    ensures Run(s, inputs) == s
    decreases |inputs|
  {
    if inputs != [] {
      KilledForGood(Step(s, inputs[0]), inputs[1..]);
    }
  }

  /******* Runs that reach the window *******/

  /** With containers that come up healthy the script rolls back of its own accord, and a single
      signal in that call is enough. */
  lemma OneSignalCanMisplaceOriginal(s: State, inputs: seq<Input>)
    requires Initial(s) && s.containers && inputs == Forward(13) + ([Signal] + Forward(7))
    ensures Run(s, inputs).files.nested == Some(Original) && !OriginalIsSafe(Run(s, inputs).files)
  {
    MisplacedInWindow(s, 0);
  }

  lemma MisplacedInWindow(s: State, n: nat)
    requires Initial(s) && s.containers && n == 0
    ensures var inputs := Forward(n + 13) + ([Signal] + Forward(7));
      Run(s, inputs).files.nested == Some(Original) && !OriginalIsSafe(Run(s, inputs).files)
  {
    StraightToWindow(s, n);
    RunKeepsInvForward(s, n + 13);
    MisplacedAfter(s, Forward(n + 13));
  }

  lemma MisplacedAfter(s: State, before: seq<Input>)
    requires Inv(Run(s, before)) && InWindow(Run(s, before), Signal)
    ensures var inputs := before + ([Signal] + Forward(7));
      Run(s, inputs).files.nested == Some(Original) && !OriginalIsSafe(Run(s, inputs).files)
  {
    SignalInWindowMisplacesOriginal(Run(s, before));
    RunConcat(s, before, [Signal] + Forward(7));
  }

  lemma {:induction false} RunConcat(s: State, a: seq<Input>, b: seq<Input>)
    ensures Run(s, a + b) == Run(Run(s, a), b)
    decreases |a|
  {
    if a == [] {
      assert a + b == b;
    } else {
      assert (a + b)[1..] == a[1..] + b;
      RunConcat(Step(s, a[0]), a[1..], b);
    }
  }

  lemma {:induction false} RunKeepsInvForward(s: State, n: nat)
    requires Inv(s)
    ensures Inv(Run(s, Forward(n)))
    decreases n
  {
    if n > 0 {
      RunForward(s, n);
      if s.calls != [] {
        CallKeepsInv(s, true);
      } else {
        MainKeepsInv(s, true);
      }
      RunKeepsInvForward(Step(s, Next(true)), n - 1);
    }
  }

  lemma SixToSwapped(s: State, n: nat)
    requires Initial(s)
    ensures Run(s, Forward(n + 6)) ==
      Run(s.(pc := StartNew, files := F(Some(Replacement), Some(Original), None, None)), Forward(n))
  {
    ThreeChecks(s, n + 3);
    SwapThree(s.(pc := StopContainers), n);
  }

  lemma ThreeChecks(s: State, n: nat)
    requires Initial(s)
    ensures Run(s, Forward(n + 3)) == Run(s.(pc := StopContainers), Forward(n))
  {
    ThreeForth(s, s.(pc := CheckSource),
      s.(pc := CheckRollback), s.(pc := StopContainers), n);
  }

  lemma SwapThree(s: State, n: nat)
    requires s.pc == StopContainers && s.calls == [] && Untouched(s.files)
    ensures Run(s, Forward(n + 3)) ==
      Run(s.(pc := StartNew, files := F(Some(Replacement), Some(Original), None, None)), Forward(n))
  {
    var t := s.(pc := MoveIn, files := F(None, Some(Original), Some(Replacement), None));
    ThreeForth(s, s.(pc := MoveOut),
      t, s.(pc := StartNew, files := F(Some(Replacement), Some(Original), None, None)), n);
  }

  /** Containers that start and answer the first probe lead into the rollback branch. */
  lemma FourToRollback(t: State, n: nat)
    requires t.pc == StartNew && t.containers && t.calls == [] && t.attempts == 0
    ensures Run(t, Forward(n + 4)) ==
      Run(t.(pc := RollingBack, healthy := Some(1), calls := [Call(CallStop, false)]), Forward(n))
  {
    var t2 := t.(pc := Probe, healthy := Some(0));
    var t3 := t.(pc := TestHealthy, healthy := Some(1));
    Forth(t, t.(pc := ResetHealth), n + 3);
    ThreeForth(t.(pc := ResetHealth), t2,
      t3, t.(pc := RollingBack, healthy := Some(1), calls := [Call(CallStop, false)]), n);
  }

  lemma ThreeToWindow(t: State, byTrap: bool, n: nat)
    requires t.calls == [Call(CallStop, byTrap)] && SwappedIn(t.files)
    ensures Run(t, Forward(n + 3)) == Run(t.(calls := [Call(MoveRootAside, byTrap)]), Forward(n))
  {
    ThreeForth(t, t.(calls := [Call(TestRoot, byTrap)]),
      t.(calls := [Call(TestRollback, byTrap)]), t.(calls := [Call(MoveRootAside, byTrap)]), n);
  }

  lemma StraightToWindow(s: State, n: nat)
    requires Initial(s) && s.containers && n == 0
    ensures InWindow(Run(s, Forward(n + 13)), Signal)
  {
    var t := s.(pc := StartNew, files := F(Some(Replacement), Some(Original), None, None));
    var u := t.(pc := RollingBack, healthy := Some(1), calls := [Call(CallStop, false)]);
    SixToSwapped(s, n + 7);
    FourToRollback(t, n + 3);
    ThreeToWindow(u, false, n);
    NoneToCome(u.(calls := [Call(MoveRootAside, false)]), n);
  }

  /** Without containers, a signal after the swap and a second one in the window of its trap end
      in success: the script removes staging with the original inside it and exits 0. */
  lemma TwoSignalsCanDestroyOriginal(s: State, inputs: seq<Input>)
    requires Initial(s) && !s.containers
    requires inputs == Forward(6) + ([Signal] + Forward(3)) + ([Signal] + Forward(11))
    ensures Run(s, inputs).pc == Exited(0) && Run(s, inputs).files == Files(None, None, None, None, None)
  {
    DestroyedInWindow(s, 0);
  }

  lemma DestroyedInWindow(s: State, n: nat)
    requires Initial(s) && !s.containers && n == 0
    ensures var inputs := Forward(n + 6) + ([Signal] + Forward(n + 3)) + ([Signal] + Forward(n + 11));
      && Run(s, inputs).pc == Exited(0)
      && Run(s, inputs).files == Files(None, None, None, None, None)
  {
    var t := s.(pc := StartNew, files := F(Some(Replacement), Some(Original), None, None));
    var w := t.(calls := [Call(MoveRootAside, true)]);
    SixToSwapped(s, n);
    NoneToCome(t, n);
    FirstSignal(t, n);
    WindowDestroys(w, n);
    ThreeRuns(s, Forward(n + 6), [Signal] + Forward(n + 3), [Signal] + Forward(n + 11));
  }

  lemma FirstSignal(t: State, n: nat)
    requires t.pc == StartNew && t.calls == [] && SwappedIn(t.files) && n == 0
    ensures Run(t, [Signal] + Forward(n + 3)) == t.(calls := [Call(MoveRootAside, true)])
  {
    RunSignal(t, Forward(n + 3));
    ThreeToWindow(t.(calls := [Call(CallStop, true)]), true, n);
    NoneToCome(t.(calls := [Call(MoveRootAside, true)]), n);
  }

  lemma ThreeRuns(s: State, a: seq<Input>, b: seq<Input>, c: seq<Input>)
    ensures Run(s, a + b + c) == Run(Run(Run(s, a), b), c)
  {
    RunConcat(s, a, b);
    RunConcat(s, a + b, c);
  }

  lemma WindowDestroys(w: State, n: nat)
    requires w.pc == StartNew && !w.containers && w.calls == [Call(MoveRootAside, true)] && SwappedIn(w.files)
    requires n == 0
    ensures Run(w, [Signal] + Forward(n + 11)).pc == Exited(0)
    ensures Run(w, [Signal] + Forward(n + 11)).files == Files(None, None, None, None, None)
  {
    RunSignal(w, Forward(n + 11));
    var y := w.(files := F(Some(Original), None, None, Some(Replacement)));
    TrapRollsBack(w.(calls := [Call(CallStop, true)] + w.calls), w.calls, n + 5);
    DestroyedFrom(y, n);
  }

  lemma RunSignal(s: State, rest: seq<Input>)
    ensures Run(s, [Signal] + rest) == Run(Step(s, Signal), rest)
  {
    assert ([Signal] + rest)[1..] == rest;
  }

  lemma DestroyedFrom(y: State, n: nat)
    requires y.pc == StartNew && !y.containers && y.calls == [Call(MoveRootAside, true)]
    requires y.files == F(Some(Original), None, None, Some(Replacement)) && n == 0
    ensures Run(y, Forward(n + 5)).pc == Exited(0)
    ensures Run(y, Forward(n + 5)).files == Files(None, None, None, None, None)
  {
    var y2 := y.(calls := [], files := Files(None, None, None, Some(Replacement), Some(Original)));
    OriginalNests(y, y2, n + 3);
    StagingRemoved(y2, n);
    NoneToCome(y2.(pc := Exited(0), files := y2.files.(source := None, failed := None, nested := None)), n);
  }

  lemma OriginalNests(y: State, y2: State, n: nat)
    requires y.calls == [Call(MoveRootAside, true)] && y.files == F(Some(Original), None, None, Some(Replacement))
    requires y2 == y.(calls := [], files := Files(None, None, None, Some(Replacement), Some(Original)))
    ensures Run(y, Forward(n + 2)) == Run(y2, Forward(n))
  {
    var y1 := y2.(calls := [Call(MoveRollbackBack, true)]);
    Forth(y, y1, n + 1);
    Forth(y1, y2, n);
  }

  lemma StagingRemoved(y: State, n: nat)
    requires y.pc == StartNew && !y.containers && y.calls == []
    ensures Run(y, Forward(n + 3)) ==
      Run(y.(pc := Exited(0), files := y.files.(source := None, failed := None, nested := None)), Forward(n))
  {
    var y1, y2 := y.(pc := ClearTrap), y.(pc := RemoveStaging);
    ThreeForth(y, y1,
      y2, y.(pc := Exited(0), files := y.files.(source := None, failed := None, nested := None)), n);
  }

  /******* Exit codes of undisturbed runs *******/

  predicate SignalFree(inputs: seq<Input>) { forall i | 0 <= i < |inputs| :: inputs[i].Next? }

  /** Where a run without signals can be. */
  predicate Quiet(s: State) {
    match s.pc
    case CheckRoot | CheckSource | CheckRollback | StopContainers | MoveOut | RestartOld =>
      s.calls == [] && Untouched(s.files) && s.healthy == None
    case MoveIn | MoveBackOld => s.calls == [] && SetAside(s.files) && s.healthy == None
    case RestartAfterMoveBack => s.calls == [] && (Untouched(s.files) || SetAside(s.files))
    case StartNew => s.calls == [] && SwappedIn(s.files) && s.healthy == None
    case ResetHealth | Probe => s.calls == [] && SwappedIn(s.files) && s.containers && s.healthy != Some(1)
    case TestHealthy => s.calls == [] && SwappedIn(s.files) && s.containers && (s.healthy == Some(1) || s.attempts >= 12)
    case RollingBack =>
      && s.healthy == Some(1) && s.containers
      && |s.calls| == 1 && !s.calls[0].byTrap
      && (match s.calls[0].pc
          case MoveRollbackBack => HalfBack(s.files)
          case CallStart => RolledBack(s.files)
          case _ => SwappedIn(s.files))
    case ClearTrap | RemoveStaging =>
      s.calls == [] && SwappedIn(s.files) && s.healthy != Some(1) && (s.containers ==> s.attempts >= 12)
    case Exited(code) =>
      s.calls == [] &&
      (|| (code == 1 && (Untouched(s.files) || SetAside(s.files)))
       || (code == 0 && SwappedIn(s.files) && s.healthy != Some(1) && (s.containers ==> s.attempts >= 12))
       || (code == 42 && RolledBack(s.files) && s.healthy == Some(1) && s.containers)
       || (code == 43 && (SwappedIn(s.files) || HalfBack(s.files)) && s.healthy == Some(1) && s.containers))
    case Killed => false
  }

  lemma QuietMain(s: State, ok: bool)
    requires Quiet(s) && s.calls == []
    ensures Quiet(StepMain(s, ok))
  {
  }

  /** Only the script's own rollback call is ever active. */
  lemma QuietCall(s: State, ok: bool)
    requires Quiet(s) && s.calls != []
    ensures Quiet(StepCall(s, ok))
  {
    assert s.pc == RollingBack && s.calls[1..] == [];
  }

  lemma {:induction false} QuietRun(s: State, inputs: seq<Input>)
    requires Quiet(s) && SignalFree(inputs)
    ensures Quiet(Run(s, inputs))
    decreases |inputs|
  {
    if inputs != [] {
      assert inputs[0].Next?;
      if s.calls != [] {
        QuietCall(s, inputs[0].ok);
      } else {
        QuietMain(s, inputs[0].ok);
      }
      QuietRun(Step(s, inputs[0]), inputs[1..]);
    }
  }

  /** What the exit codes of a run without signals mean.  A healthy replacement is what makes the
      script roll back; success with containers means that they never came up. */
  lemma ExitCodes(s: State, inputs: seq<Input>)
    requires Initial(s) && SignalFree(inputs) && Run(s, inputs).pc.Exited?
    ensures var t := Run(s, inputs); var code := t.pc.code;
      && (code == 0 ==> t.files.root == Some(Replacement) && t.files.rollback == Some(Original))
      && (code == 42 ==> t.files.root == Some(Original))
      && (code == 43 ==> t.files.rollback == Some(Original))
      && (code == 1 ==> t.files.root == Some(Original) || t.files.rollback == Some(Original))
      && (code == 42 || code == 43 ==> t.containers && t.healthy == Some(1))
      && (code == 0 && t.containers ==> t.healthy != Some(1) && t.attempts >= 12)
      && code in {0, 1, 42, 43}
  {
    QuietRun(s, inputs);
  }
}
