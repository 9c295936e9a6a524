/** The evaluation controller's lifecycle as a value: its flags, the calls
    it has made on the engine and the results it has forwarded to its
    caller, with one transition function per operation. The class in
    CevalCtrl performs these transitions in place; the lemmas here are the
    protocol the transitions keep over any sequence of operations.

    The engine's `init()` and `exit()` return promises. Calling them and
    their settling are separate operations here, so a `destroy()` issued
    while an earlier exit is still pending is part of the model. */
module CevalLifecycle {
  import opened CevalWork

  /** A call the controller makes on the engine, which is otherwise opaque. */
  datatype EngineCall = Init(variant: string) | Start(work: Work) | Stop | Exit

  datatype CallKind = InitCall | StartCall | StopCall | ExitCall

  function KindOf(c: EngineCall): CallKind
  {
    match c
    case Init(_) => InitCall
    case Start(_) => StartCall
    case Stop => StopCall
    case Exit => ExitCall
  }

  /** How an engine promise (`init()` or `exit()`) settled. */
  datatype Settlement = Resolved | Rejected

  /** A result forwarded to the caller's `emit` callback. */
  datatype Delivery = Delivery(res: ClientEval, work: Work)

  /** `pendingInits` and `pendingExits` count the engine promises that have
      not settled yet: the callbacks the runtime still owes the controller. */
  datatype Lifecycle = Lifecycle(
    variant: string,
    allowed: bool,
    isEnabled: bool,
    initialized: bool,
    started: bool,
    pendingInits: nat,
    pendingExits: nat,
    calls: seq<EngineCall>,
    delivered: seq<Delivery>)
  {
    /** The controller works only when its creator allows it (the `allowed`
        argument, fixed for the controller's lifetime) and the user's
        setting has it switched on. */
    predicate Enabled()
    {
      allowed && isEnabled
    }
  }

  /** Number of calls of the given kind in a call log. */
  function Count(calls: seq<EngineCall>, k: CallKind): nat
  {
    if calls == [] then 0
    else Count(calls[..|calls| - 1], k) + (if KindOf(calls[|calls| - 1]) == k then 1 else 0)
  }

  lemma CountSnoc(calls: seq<EngineCall>, c: EngineCall, k: CallKind)
    ensures Count(calls + [c], k) == Count(calls, k) + (if KindOf(c) == k then 1 else 0)
  {
    assert (calls + [c])[..|calls|] == calls;
  }

  // ---------------------------------------------------------------------
  // Transitions, one per operation of the controller

  /** A fresh controller: nothing initialised, nothing started, nothing
      pending, the setting read once. */
  function Initial(variant: string, allowed: bool, setting: bool): Lifecycle
  {
    Lifecycle(variant, allowed, setting, false, false, 0, 0, [], [])
  }

  /** `init()`: calls the engine's init, whose promise is now pending. */
  function InitStep(s: Lifecycle): Lifecycle
  {
    s.(calls := s.calls + [Init(s.variant)], pendingInits := s.pendingInits + 1)
  }

  /** The init promise settles: the controller counts as initialised when
      it resolved; a rejection leaves the flag as it was. With no init
      pending there is nothing to settle. */
  function InitSettledStep(s: Lifecycle, outcome: Settlement): Lifecycle
  {
    if s.pendingInits == 0 then s
    else
      var s1 := s.(pendingInits := s.pendingInits - 1);
      match outcome
      case Resolved => s1.(initialized := true)
      case Rejected => s1
  }

  /** `start(path, steps)`: ignored when disabled or when the last node is
      already evaluated deeply enough; otherwise one engine start. An
      enabled start with no nodes throws in the source before anything
      changes, so the state is left as it was. */
  function StartStep(s: Lifecycle, path: string, steps: seq<Node>): Lifecycle
  {
    if !s.Enabled() then s
    else if |steps| == 0 then s
    else if !NeedsAnalysis(steps[|steps| - 1]) then s
    else s.(calls := s.calls + [Start(BuildWork(path, steps))], started := true)
  }

  /** `stop()`: stops the engine only when enabled and started. */
  function StopStep(s: Lifecycle): Lifecycle
  {
    if !s.Enabled() || !s.started then s
    else s.(calls := s.calls + [Stop], started := false)
  }

  /** `destroy()`: calls the engine's exit only when initialised. The flag
      stays set until that promise settles. */
  function DestroyStep(s: Lifecycle): Lifecycle
  {
    if !s.initialized then s
    else s.(calls := s.calls + [Exit], pendingExits := s.pendingExits + 1)
  }

  /** The exit promise settles: resolved or rejected, the controller is no
      longer initialised. With no exit pending there is nothing to settle. */
  function ExitSettledStep(s: Lifecycle, outcome: Settlement): Lifecycle
  {
    if s.pendingExits == 0 then s
    else
      var s1 := s.(pendingExits := s.pendingExits - 1);
      match outcome
      case Resolved => s1.(initialized := false)
      case Rejected => s1.(initialized := false)
  }

  /** `toggle()`: re-reads the enable setting and nothing else. */
  function ToggleStep(s: Lifecycle, setting: bool): Lifecycle
  {
    s.(isEnabled := setting)
  }

  /** The `emit` of a request: the engine reports a result for `work`; it is
      forwarded to the caller only if the controller is enabled now. */
  function EmitStep(s: Lifecycle, res: ClientEval, work: Work): Lifecycle
  {
    if s.Enabled() then s.(delivered := s.delivered + [Delivery(res, work)]) else s
  }

  // ---------------------------------------------------------------------
  // Sequences of operations

  /** The caller's calls, plus the two things the environment does on its
      own: a pending promise settles, and the engine reports a result. */
  datatype Op =
    | InitOp
    | InitSettledOp(initOutcome: Settlement)
    | StartOp(path: string, steps: seq<Node>)
    | StopOp
    | DestroyOp
    | ExitSettledOp(exitOutcome: Settlement)
    | ToggleOp(setting: bool)
    | EmitOp(res: ClientEval, work: Work)

  function Apply(s: Lifecycle, op: Op): Lifecycle
  {
    match op
    case InitOp => InitStep(s)
    case InitSettledOp(o) => InitSettledStep(s, o)
    case StartOp(path, steps) => StartStep(s, path, steps)
    case StopOp => StopStep(s)
    case DestroyOp => DestroyStep(s)
    case ExitSettledOp(o) => ExitSettledStep(s, o)
    case ToggleOp(b) => ToggleStep(s, b)
    case EmitOp(res, work) => EmitStep(s, res, work)
  }

  function Run(s: Lifecycle, ops: seq<Op>): Lifecycle
    decreases |ops|
  {
    if ops == [] then s else Run(Apply(s, ops[0]), ops[1..])
  }

  /** What the environment can actually do in state `s`: a promise settles
      only while one is pending, and the engine reports only on a request
      it was sent (the `emit` closure exists only inside such a request).
      The caller's own operations are always possible. */
  predicate Possible(s: Lifecycle, op: Op)
  {
    match op
    case InitSettledOp(_) => s.pendingInits > 0
    case ExitSettledOp(_) => s.pendingExits > 0
    case EmitOp(_, work) => Start(work) in s.calls
    case _ => true
  }

  ghost predicate Feasible(s: Lifecycle, ops: seq<Op>)
    decreases |ops|
  {
    ops == [] || (Possible(s, ops[0]) && Feasible(Apply(s, ops[0]), ops[1..]))
  }

  // ---------------------------------------------------------------------
  // Properties of single transitions

  /** Toggling changes whether the controller is enabled and nothing else. */
  lemma ToggleOnlyRereadsSetting(s: Lifecycle, setting: bool)
    ensures var t := ToggleStep(s, setting);
      t.Enabled() == (s.allowed && setting)
      && t.started == s.started && t.initialized == s.initialized && t.allowed == s.allowed
      && t.calls == s.calls && t.delivered == s.delivered
  {
  }

  /** A start reaches the engine exactly when the controller is enabled,
      the line is not empty and its last node still needs analysis; the
      request then describes the line from the root to that node. In every
      other case, a disabled controller with no nodes included, nothing
      changes. */
  lemma StartIssuesOneRequest(s: Lifecycle, path: string, steps: seq<Node>)
    ensures var t := StartStep(s, path, steps);
      if s.Enabled() && |steps| > 0 && NeedsAnalysis(steps[|steps| - 1]) then
        t.started && |t.calls| == |s.calls| + 1 && t.calls[..|s.calls|] == s.calls
        && t.calls[|s.calls|].Start? && t.calls[|s.calls|].work.initialFen == steps[0].fen
        && t.calls[|s.calls|].work.moves == Moves(steps[1..])
      else
        t == s
  {
  }

  /** Init followed by the settling of its promise sends one init and
      leaves the controller initialised exactly when it already was or the
      promise resolved. */
  lemma InitThenSettle(s: Lifecycle, outcome: Settlement)
    ensures var t := InitSettledStep(InitStep(s), outcome);
      t.calls == s.calls + [Init(s.variant)]
      && t.initialized == (s.initialized || outcome == Resolved)
      && t.pendingInits == s.pendingInits
  {
  }

  /** Destroy calls exit only on an initialised controller and leaves the
      flag set while exit is pending; once that exit settles, resolved or
      rejected, the controller is no longer initialised. */
  lemma DestroyThenSettle(s: Lifecycle, outcome: Settlement)
    ensures DestroyStep(s).calls == s.calls + (if s.initialized then [Exit] else [])
    ensures DestroyStep(s).initialized == s.initialized
    ensures s.initialized ==> !ExitSettledStep(DestroyStep(s), outcome).initialized
  {
  }

  /** Two `destroy()` calls before the first exit settles both reach the
      engine: after one successful init, the engine is told to exit twice. */
  lemma DoubleDestroySendsTwoExits(variant: string, allowed: bool, setting: bool)
    ensures var ops := [InitOp, InitSettledOp(Resolved), DestroyOp, DestroyOp];
      var t := Run(Initial(variant, allowed, setting), ops);
      Feasible(Initial(variant, allowed, setting), ops)
      && t.calls == [Init(variant), Exit, Exit] && t.initialized && t.pendingExits == 2
  {
  }

  /** `destroy()` does not clear `started`: after the engine has exited, a
      `stop()` on the still-enabled controller sends it a stop. */
  lemma StopAfterExit(variant: string, path: string, n: Node)
    requires NeedsAnalysis(n)
    ensures var ops := [InitOp, InitSettledOp(Resolved), StartOp(path, [n]), DestroyOp, ExitSettledOp(Resolved), StopOp];
      var t := Run(Initial(variant, true, true), ops);
      Feasible(Initial(variant, true, true), ops)
      && t.calls == [Init(variant), Start(BuildWork(path, [n])), Exit, Stop]
      && !t.initialized && !t.started
  {
    var ops := [InitOp, InitSettledOp(Resolved), StartOp(path, [n]), DestroyOp, ExitSettledOp(Resolved), StopOp];
    var s0 := Initial(variant, true, true);
    var s1 := InitStep(s0);
    var s2 := InitSettledStep(s1, Resolved);
    var s3 := StartStep(s2, path, [n]);
    var s4 := DestroyStep(s3);
    var s5 := ExitSettledStep(s4, Resolved);
    var s6 := StopStep(s5);
    assert s3.calls == [Init(variant), Start(BuildWork(path, [n]))] && s3.started;
    assert s6.calls == [Init(variant), Start(BuildWork(path, [n])), Exit, Stop];
    assert Run(s6, []) == s6;
    assert Run(s5, ops[5..]) == s6 && Feasible(s5, ops[5..]) by {
      assert ops[5..][1..] == [];
    }
    assert Run(s4, ops[4..]) == s6 && Feasible(s4, ops[4..]) by {
      assert ops[4..][1..] == ops[5..];
    }
    assert Run(s3, ops[3..]) == s6 && Feasible(s3, ops[3..]) by {
      assert ops[3..][1..] == ops[4..];
    }
    assert Run(s2, ops[2..]) == s6 && Feasible(s2, ops[2..]) by {
      assert ops[2..][1..] == ops[3..];
    }
    assert Run(s1, ops[1..]) == s6 && Feasible(s1, ops[1..]) by {
      assert ops[1..][1..] == ops[2..];
    }
  }

  // ---------------------------------------------------------------------
  // The engine protocol kept over any sequence of operations

  /** No exit is sent before some init has been sent. */
  predicate ExitsFollowInit(calls: seq<EngineCall>)
  {
    forall k {:trigger Count(calls[..k], InitCall)} :: 0 <= k < |calls| && KindOf(calls[k]) == ExitCall ==> Count(calls[..k], InitCall) > 0
  }

  /** A search is running after `calls`: the last start or stop among them
      is a start. An exit does not end it: `destroy()` leaves `started`
      set (see StopAfterExit). */
  predicate Running(calls: seq<EngineCall>)
  {
    if calls == [] then false
    else match KindOf(calls[|calls| - 1])
      case StartCall => true
      case StopCall => false
      case _ => Running(calls[..|calls| - 1])
  }

  /** Every stop is sent while a search is running: after a start, with no
      stop in between. */
  predicate StopsFollowStart(calls: seq<EngineCall>)
  {
    forall k {:trigger Running(calls[..k])} :: 0 <= k < |calls| && KindOf(calls[k]) == StopCall ==> Running(calls[..k])
  }

  /** `started` is exactly "a search is running" in the engine log, and
      every stop is sent while one runs (so a running search also accounts
      for one more start than stops); every exit follows an init, and an
      initialised engine, or one whose init is pending, was sent an init;
      every pending promise comes from a call that was made. */
  predicate Protocol(s: Lifecycle)
  {
    s.started == Running(s.calls)
    && StopsFollowStart(s.calls)
    && Count(s.calls, StopCall) + (if s.started then 1 else 0) <= Count(s.calls, StartCall)
    && ((s.initialized || s.pendingInits > 0) ==> Count(s.calls, InitCall) > 0)
    && ExitsFollowInit(s.calls)
    && s.pendingInits <= Count(s.calls, InitCall)
    && s.pendingExits <= Count(s.calls, ExitCall)
  }

  lemma InitialProtocol(variant: string, allowed: bool, setting: bool)
    ensures Protocol(Initial(variant, allowed, setting))
  {
  }

  /** Appending one call to the log: each kind's count grows by whether
      the call is of that kind, and an exit sent after an init keeps
      ExitsFollowInit. */
  lemma Send(calls: seq<EngineCall>, c: EngineCall)
    requires ExitsFollowInit(calls)
    requires KindOf(c) == ExitCall ==> Count(calls, InitCall) > 0
    ensures ExitsFollowInit(calls + [c])
    ensures forall k :: Count(calls + [c], k) == Count(calls, k) + (if KindOf(c) == k then 1 else 0)
  {
    var t := calls + [c];
    forall k ensures Count(t, k) == Count(calls, k) + (if KindOf(c) == k then 1 else 0) {
      CountSnoc(calls, c, k);
    }
    forall j | 0 <= j < |t| && KindOf(t[j]) == ExitCall ensures Count(t[..j], InitCall) > 0 {
      if j < |calls| {
        assert t[..j] == calls[..j] && t[j] == calls[j];
      } else {
        assert t[..j] == calls;
      }
    }
  }

  /** Appending one call to the log: a start makes a search run, a stop
      ends it, any other call leaves it; a stop sent while a search runs
      keeps StopsFollowStart. */
  lemma SendRunning(calls: seq<EngineCall>, c: EngineCall)
    requires StopsFollowStart(calls)
    requires KindOf(c) == StopCall ==> Running(calls)
    ensures StopsFollowStart(calls + [c])
    ensures Running(calls + [c]) == (KindOf(c) == StartCall || (KindOf(c) != StopCall && Running(calls)))
  {
    var t := calls + [c];
    assert t[..|calls|] == calls;
    forall j | 0 <= j < |t| && KindOf(t[j]) == StopCall ensures Running(t[..j]) {
      if j < |calls| {
        assert t[..j] == calls[..j] && t[j] == calls[j];
      }
    }
  }

  lemma InitKeepsProtocol(s: Lifecycle)
    requires Protocol(s)
    ensures Protocol(InitStep(s))
  {
    Send(s.calls, Init(s.variant));
    SendRunning(s.calls, Init(s.variant));
  }

  lemma StartKeepsProtocol(s: Lifecycle, path: string, steps: seq<Node>)
    requires Protocol(s)
    ensures Protocol(StartStep(s, path, steps))
  {
    if s.Enabled() && |steps| > 0 && NeedsAnalysis(steps[|steps| - 1]) {
      Send(s.calls, Start(BuildWork(path, steps)));
      SendRunning(s.calls, Start(BuildWork(path, steps)));
    }
  }

  lemma StopKeepsProtocol(s: Lifecycle)
    requires Protocol(s)
    ensures Protocol(StopStep(s))
  {
    if s.Enabled() && s.started {
      Send(s.calls, Stop);
      SendRunning(s.calls, Stop);
    }
  }

  lemma DestroyKeepsProtocol(s: Lifecycle)
    requires Protocol(s)
    ensures Protocol(DestroyStep(s))
  {
    if s.initialized {
      Send(s.calls, Exit);
      SendRunning(s.calls, Exit);
    }
  }

  /** A step that sends nothing and leaves `started` alone keeps the
      protocol, provided it settles only pending promises and becomes
      initialised only through a pending init. */
  lemma SettleKeepsProtocol(s: Lifecycle, t: Lifecycle)
    requires Protocol(s)
    requires t.calls == s.calls && t.started == s.started
    requires t.pendingInits <= s.pendingInits && t.pendingExits <= s.pendingExits
    requires t.initialized ==> s.initialized || s.pendingInits > 0
    ensures Protocol(t)
  {
  }

  /** The operations that call the engine keep the protocol. */
  lemma CallKeepsProtocol(s: Lifecycle, op: Op)
    requires Protocol(s)
    requires op.InitOp? || op.StartOp? || op.StopOp? || op.DestroyOp?
    ensures Protocol(Apply(s, op))
  {
    match op
    case InitOp =>
      InitKeepsProtocol(s);
    case StartOp(path, steps) =>
      StartKeepsProtocol(s, path, steps);
    case StopOp =>
      StopKeepsProtocol(s);
    case DestroyOp =>
      DestroyKeepsProtocol(s);
  }

  /** Settlements, toggles and reports from the engine send nothing and
      keep the protocol. */
  lemma QuietKeepsProtocol(s: Lifecycle, op: Op)
    requires Protocol(s)
    requires op.InitSettledOp? || op.ExitSettledOp? || op.ToggleOp? || op.EmitOp?
    ensures Protocol(Apply(s, op))
  {
    var t := Apply(s, op);
    match op
    case InitSettledOp(o) =>
      assert t == InitSettledStep(s, o);
    case ExitSettledOp(o) =>
      assert t == ExitSettledStep(s, o);
    case ToggleOp(b) =>
      assert t == ToggleStep(s, b);
    case EmitOp(res, work) =>
      assert t == EmitStep(s, res, work);
    SettleKeepsProtocol(s, t);
  }

  /** Every operation, and every settlement and report from the
      environment, keeps the protocol. */
  lemma ApplyKeepsProtocol(s: Lifecycle, op: Op)
    requires Protocol(s)
    ensures Protocol(Apply(s, op))
  {
    if op.InitOp? || op.StartOp? || op.StopOp? || op.DestroyOp? {
      CallKeepsProtocol(s, op);
    } else {
      QuietKeepsProtocol(s, op);
    }
  }

  lemma {:induction false} RunKeepsProtocol(s: Lifecycle, ops: seq<Op>)
    requires Protocol(s)
    ensures Protocol(Run(s, ops))
    decreases |ops|
  {
    if ops != [] {
      ApplyKeepsProtocol(s, ops[0]);
      RunKeepsProtocol(Apply(s, ops[0]), ops[1..]);
    }
  }

  /** From a fresh controller, whatever is called in whatever order and
      however the promises settle, the engine never receives more stops
      than starts, and never an exit before an init. */
  lemma FreshControllerProtocol(variant: string, allowed: bool, setting: bool, ops: seq<Op>)
    ensures var t := Run(Initial(variant, allowed, setting), ops);
      Count(t.calls, StopCall) <= Count(t.calls, StartCall)
      && StopsFollowStart(t.calls)
      && t.started == Running(t.calls)
      && ExitsFollowInit(t.calls)
  {
    InitialProtocol(variant, allowed, setting);
    RunKeepsProtocol(Initial(variant, allowed, setting), ops);
  }

  // ---------------------------------------------------------------------
  // Results reach the caller only for requests that were sent

  /** Every delivered result belongs to a request sent to the engine. */
  predicate Answered(s: Lifecycle)
  {
    forall d :: d in s.delivered ==> Start(d.work) in s.calls
  }

  lemma ApplyKeepsAnswered(s: Lifecycle, op: Op)
    requires Possible(s, op) && Answered(s)
    ensures Answered(Apply(s, op))
    ensures s.calls <= Apply(s, op).calls
  {
  }

  lemma {:induction false} RunKeepsAnswered(s: Lifecycle, ops: seq<Op>)
    requires Feasible(s, ops) && Answered(s)
    ensures Answered(Run(s, ops))
    decreases |ops|
  {
    if ops != [] {
      ApplyKeepsAnswered(s, ops[0]);
      RunKeepsAnswered(Apply(s, ops[0]), ops[1..]);
    }
  }

  // ---------------------------------------------------------------------
  // Silence while disabled

  /** From `s` to `t` the controller stayed disabled and silent: still
      disabled, nothing delivered, `started` unchanged and no start or stop
      sent. */
  predicate Quiet(s: Lifecycle, t: Lifecycle)
  {
    !t.Enabled() && t.allowed == s.allowed
    && t.delivered == s.delivered && t.started == s.started
    && Count(t.calls, StartCall) == Count(s.calls, StartCall)
    && Count(t.calls, StopCall) == Count(s.calls, StopCall)
  }

  /** Sending init or exit neither starts nor stops a search. */
  lemma SendQuiet(s: Lifecycle, c: EngineCall, t: Lifecycle)
    requires !s.Enabled() && (c == Init(s.variant) || c == Exit)
    requires t == s.(calls := s.calls + [c], pendingInits := t.pendingInits, pendingExits := t.pendingExits)
    ensures Quiet(s, t)
  {
    CountSnoc(s.calls, c, StartCall);
    CountSnoc(s.calls, c, StopCall);
  }

  /** One operation on a disabled controller that does not switch it back
      on keeps it disabled and silent. */
  lemma ApplyWhileDisabled(s: Lifecycle, op: Op)
    requires !s.Enabled()
    requires !s.allowed || op != ToggleOp(true)
    ensures Quiet(s, Apply(s, op))
  {
    match op
    case InitOp =>
      SendQuiet(s, Init(s.variant), InitStep(s));
    case InitSettledOp(o) =>
      assert Apply(s, op) == InitSettledStep(s, o);
    case StartOp(path, steps) =>
      assert Apply(s, op) == s;
    case StopOp =>
      assert Apply(s, op) == s;
    case DestroyOp =>
      if s.initialized {
        SendQuiet(s, Exit, DestroyStep(s));
      }
    case ExitSettledOp(o) =>
      assert Apply(s, op) == ExitSettledStep(s, o);
    case ToggleOp(b) =>
      assert Apply(s, op) == ToggleStep(s, b);
    case EmitOp(res, work) =>
      assert Apply(s, op) == s;
  }

  /** While the controller stays disabled (never allowed, or the setting is
      never switched back on), no result reaches the caller, no search is
      started or stopped, and `started` does not change. */
  lemma {:induction false} SilentWhileDisabled(s: Lifecycle, ops: seq<Op>)
    requires !s.Enabled()
    requires !s.allowed || forall i :: 0 <= i < |ops| ==> ops[i] != ToggleOp(true)
    ensures var t := Run(s, ops);
      t.delivered == s.delivered && t.started == s.started
      && Count(t.calls, StartCall) == Count(s.calls, StartCall)
      && Count(t.calls, StopCall) == Count(s.calls, StopCall)
    decreases |ops|
  {
    if ops != [] {
      ApplyWhileDisabled(s, ops[0]);
      var rest := ops[1..];
      assert forall i :: 0 <= i < |rest| ==> rest[i] == ops[i + 1];
      SilentWhileDisabled(Apply(s, ops[0]), rest);
    }
  }
}
