/** The evaluation controller itself: the closure state `initialized`,
    `started` and `isEnabled` becomes mutable fields of a class, the
    constructor arguments become constants, and the engine and the caller's
    `emit` callback are ghost logs of what the controller sent them. Each
    operation performs one transition of CevalLifecycle in place; the
    settling of an engine promise is an operation of its own. */
module CevalCtrl {
  import opened CevalWork
  import opened CevalLifecycle

  class Controller {
    const variant: string
    const allowed: bool
    /** The options the engine was created with. */
    const config: EngineConfig
    var initialized: bool
    var started: bool
    var isEnabled: bool
    /** Engine promises (`init()`, `exit()`) that have not settled yet. */
    ghost var pendingInits: nat
    ghost var pendingExits: nat
    /** Calls made on the engine, oldest first. */
    ghost var calls: seq<EngineCall>
    /** Results forwarded to the caller's `emit`, oldest first. */
    ghost var delivered: seq<Delivery>

    ghost function State(): Lifecycle
      reads this
    {
      Lifecycle(variant, allowed, isEnabled, initialized, started, pendingInits, pendingExits, calls, delivered)
    }

    /** The engine protocol holds, and every forwarded result belongs to a
        request that was sent. */
    ghost predicate Valid()
      reads this
    {
      Protocol(State()) && Answered(State())
    }

    /** The controller is created with nothing initialised or started and
        the enable setting read once; creating the engine sends it nothing. */
    constructor (variant: string, allowed: bool, setting: bool, cores: int)
      ensures Valid()
      ensures State() == Initial(variant, allowed, setting)
      ensures config == EngineConfig(MinDepth, MaxDepth, cores, MultiPv)
      ensures !initialized && !started && isEnabled == setting && calls == [] && delivered == []
    {
      this.variant := variant;
      this.allowed := allowed;
      config := EngineConfig(MinDepth, MaxDepth, cores, MultiPv);
      initialized := false;
      started := false;
      isEnabled := setting;
      pendingInits := 0;
      pendingExits := 0;
      calls := [];
      delivered := [];
      new;
      InitialProtocol(variant, allowed, setting);
    }

    predicate Enabled()
      reads this
      ensures Enabled() <==> State().Enabled()
    {
      allowed && isEnabled
    }

    method IsInit() returns (b: bool)
      ensures b <==> State().initialized
    {
      b := initialized;
    }

    /** `init()`: sends init with the variant; its promise is now pending. */
    method Init()
      requires Valid()
      modifies this
      ensures Valid() && State() == InitStep(old(State()))
      ensures calls == old(calls) + [EngineCall.Init(variant)] && pendingInits == old(pendingInits) + 1
      ensures initialized == old(initialized) && started == old(started)
      ensures isEnabled == old(isEnabled) && delivered == old(delivered) && pendingExits == old(pendingExits)
    {
      ghost var s := State();
      calls := calls + [EngineCall.Init(variant)];
      pendingInits := pendingInits + 1;
      assert State() == InitStep(s);
      InitKeepsProtocol(s);
      ApplyKeepsAnswered(s, InitOp);
    }

    /** The `then` of `init()`: runs when a pending init promise settles. */
    method InitSettled(outcome: Settlement)
      requires Valid() && pendingInits > 0
      modifies this
      ensures Valid() && State() == InitSettledStep(old(State()), outcome)
      ensures initialized == (old(initialized) || outcome == Resolved) && pendingInits == old(pendingInits) - 1
      ensures calls == old(calls) && started == old(started) && isEnabled == old(isEnabled)
      ensures delivered == old(delivered) && pendingExits == old(pendingExits)
    {
      pendingInits := pendingInits - 1;
      if outcome == Resolved {
        initialized := true;
      }
    }

    /** `start(path, steps)`: `steps` runs from the root to the node to
        analyse. A disabled controller ignores the call whatever `steps` is;
        an enabled one reads its last node, so it must have one. */
    method Start(path: string, steps: seq<Node>)
      requires Enabled() ==> |steps| > 0
      requires Valid()
      modifies this
      ensures Valid() && State() == StartStep(old(State()), path, steps)
      ensures if old(Enabled()) && NeedsAnalysis(steps[|steps| - 1]) then
          calls == old(calls) + [EngineCall.Start(BuildWork(path, steps))] && started
        else
          calls == old(calls) && started == old(started)
      ensures initialized == old(initialized) && isEnabled == old(isEnabled) && delivered == old(delivered)
      ensures pendingInits == old(pendingInits) && pendingExits == old(pendingExits)
    {
      ghost var s := State();
      if !Enabled() {
        return;
      }
      var step := steps[|steps| - 1];
      if step.ceval.Some? && step.ceval.value.depth >= MaxDepth {
        return;
      }
      var work := BuildWork(path, steps);
      calls := calls + [EngineCall.Start(work)];
      started := true;
      assert State() == StartStep(s, path, steps);
      StartKeepsProtocol(s, path, steps);
      ApplyKeepsAnswered(s, StartOp(path, steps));
    }

    /** `stop()`. */
    method Stop()
      requires Valid()
      modifies this
      ensures Valid() && State() == StopStep(old(State()))
      ensures if old(Enabled()) && old(started) then
          calls == old(calls) + [EngineCall.Stop] && !started
        else
          calls == old(calls) && started == old(started)
      ensures initialized == old(initialized) && isEnabled == old(isEnabled) && delivered == old(delivered)
      ensures pendingInits == old(pendingInits) && pendingExits == old(pendingExits)
    {
      ghost var s := State();
      if !Enabled() || !started {
        return;
      }
      calls := calls + [EngineCall.Stop];
      started := false;
      assert State() == StopStep(s);
      StopKeepsProtocol(s);
      ApplyKeepsAnswered(s, StopOp);
    }

    /** `destroy()`: sends exit when initialised; `initialized` stays set
        until the exit promise settles. */
    method Destroy()
      requires Valid()
      modifies this
      ensures Valid() && State() == DestroyStep(old(State()))
      ensures calls == old(calls) + (if old(initialized) then [EngineCall.Exit] else [])
      ensures pendingExits == old(pendingExits) + (if old(initialized) then 1 else 0)
      ensures initialized == old(initialized) && started == old(started) && isEnabled == old(isEnabled)
      ensures delivered == old(delivered) && pendingInits == old(pendingInits)
    {
      ghost var s := State();
      if initialized {
        calls := calls + [EngineCall.Exit];
        pendingExits := pendingExits + 1;
        assert State() == DestroyStep(s);
        DestroyKeepsProtocol(s);
        ApplyKeepsAnswered(s, DestroyOp);
      }
    }

    /** The `then` and `catch` of `exit()`: runs when a pending exit
        promise settles, either way. */
    method ExitSettled(outcome: Settlement)
      requires Valid() && pendingExits > 0
      modifies this
      ensures Valid() && State() == ExitSettledStep(old(State()), outcome)
      ensures !initialized && pendingExits == old(pendingExits) - 1
      ensures calls == old(calls) && started == old(started) && isEnabled == old(isEnabled)
      ensures delivered == old(delivered) && pendingInits == old(pendingInits)
    {
      pendingExits := pendingExits - 1;
      match outcome
      case Resolved => initialized := false;
      case Rejected => initialized := false;
    }

    /** `toggle()`, with the current value of the enable setting given. */
    method Toggle(setting: bool)
      requires Valid()
      modifies this`isEnabled
      ensures Valid() && State() == ToggleStep(old(State()), setting)
      ensures isEnabled == setting && Enabled() == (allowed && setting)
    {
      isEnabled := setting;
    }

    /** The `emit` of a request the controller sent: the engine reports
        `res` for `work`. */
    method Emit(res: ClientEval, work: Work)
      requires Valid() && EngineCall.Start(work) in calls
      modifies this`delivered
      ensures Valid() && State() == EmitStep(old(State()), res, work)
      ensures delivered == old(delivered) + (if Enabled() then [Delivery(res, work)] else [])
    {
      if Enabled() {
        delivered := delivered + [Delivery(res, work)];
      }
    }
  }
}
