/** `SafeExecutor.run` as a protocol over the same child, descendants, pipes and clock as the streamed
    run. One thread feeds stdin and collects both outputs (`communicate`); when the budget is over it
    kills, collects for one grace more, and else waits one grace for the exit and gives the output up. */
module Buffered {
  import opened Text
  import opened Executor
  import Protocol

  type Config = Protocol.Config

  /** Where the calling thread stands. */
  datatype Phase =
    | Talk                      // communicate within the budget
    | KillTree
    | Drain(until: nat)         // communicate within the grace
    | LastWait(until: nat)      // wait within a second grace
    | Returned(how: Communicated)

  /** `core` holds the child, the pipes and what was collected; its own relay stays in its pump. */
  datatype State = State(core: Protocol.State, phase: Phase)

  datatype Action =
    | Core(move: Protocol.Action)
    | Done | Late | Kill | DrainLate | Reap | ReapLate | Tick

  function Initial(c: Config): State { State(Protocol.Initial(c), Talk) }

  predicate Talking(p: Phase) { p.Talk? || p.Drain? }

  predicate Transfers(a: Protocol.Action) {
    a.OfWriter? || (a.OfPump? && (a.pump.ReadOut? || a.pump.ReadErr? || a.pump.EofOut? || a.pump.EofErr?))
  }

  /** stdin is fed or broken, both outputs are at their end, and the child has exited. */
  predicate Finished(s: Protocol.State) { s.writerDone && s.outEof && s.errEof && s.child.Exited? }

  function WaitsUntil(c: Config, p: Phase): Option<nat> {
    match p
    case Talk => Some(c.deadline)
    case Drain(u) => Some(u)
    case LastWait(u) => Some(u)
    case _ => None
  }

  predicate Enabled(c: Config, s: State, a: Action) {
    match a
    case Core(m) => (m.OfChild? || m.OfStray? || (Talking(s.phase) && Transfers(m))) && Protocol.Enabled(c, s.core, m)
    case Done => Talking(s.phase) && Finished(s.core)
    case Late => s.phase.Talk? && !Finished(s.core) && s.core.now >= c.deadline
    case Kill => s.phase.KillTree? && Protocol.Enabled(c, s.core, Protocol.OfClock(Protocol.WatchKill))
    case DrainLate => s.phase.Drain? && !Finished(s.core) && s.core.now >= s.phase.until
    case Reap => s.phase.LastWait? && s.core.child.Exited?
    case ReapLate => s.phase.LastWait? && s.core.child.Alive? && s.core.now >= s.phase.until
    case Tick => WaitsUntil(c, s.phase).Some? && s.core.now < WaitsUntil(c, s.phase).value
  }

  function Step(c: Config, s: State, a: Action): State
    requires Enabled(c, s, a)
  {
    match a
    case Core(m) => s.(core := Protocol.Step(c, s.core, m))
    case Done =>
      s.(phase := Returned(if s.phase.Talk? then InTime(s.core.gotOut, s.core.gotErr, s.core.child.code)
                           else LateDrained(s.core.gotOut, s.core.gotErr, Some(s.core.child.code))))
    case Late => s.(phase := KillTree)
    case Kill => State(Protocol.Step(c, s.core, Protocol.OfClock(Protocol.WatchKill)), Drain(s.core.now + c.grace))
    case DrainLate => s.(phase := LastWait(s.core.now + c.grace))
    case Reap => s.(phase := Returned(Abandoned(Some(s.core.child.code))))
    case ReapLate => s.(phase := Returned(Abandoned(None)))
    case Tick => s.(core := Later(s.core))
  }

  function Later(s: Protocol.State): Protocol.State { s.(now := s.now + 1) }

  ghost predicate IsRun(c: Config, s: State, actions: seq<Action>)
    decreases |actions|
  {
    actions == [] || (Enabled(c, s, actions[0]) && IsRun(c, Step(c, s, actions[0]), actions[1..]))
  }

  function After(c: Config, s: State, actions: seq<Action>): State
    requires IsRun(c, s, actions)
    decreases |actions|
  {
    if actions == [] then s else After(c, Step(c, s, actions[0]), actions[1..])
  }

  // ---------------------------------------------------------------- invariant

  /** How late each phase can be. */
  function LatestAt(c: Config, p: Phase): nat {
    match p
    case Drain(_) => c.Horizon() + c.grace
    case LastWait(_) => c.Horizon() + 2 * c.grace
    case Returned(_) => c.Horizon() + 2 * c.grace
    case _ => c.Horizon()
  }

  /** The kill is this thread's own: it has been sent exactly when the phase is past it. */
  ghost predicate PhaseInv(c: Config, s: State) {
    && s.core.phase.Pump?
    && (s.phase.Talk? || s.phase.KillTree? ==> s.core.watch.Armed? && !s.core.killSent)
    && (!s.phase.Talk? && !(s.phase.Returned? && s.phase.how.InTime?) ==> s.core.now >= c.deadline)
    && s.core.now <= LatestAt(c, s.phase)
    && (s.phase.Drain? || s.phase.LastWait? ==> s.core.now <= s.phase.until <= LatestAt(c, s.phase))
    && (s.phase.Returned? ==> Reported(s.core, s.phase.how))
  }

  /** What the three ways of ending say about the child and the collected output. */
  ghost predicate Reported(s: Protocol.State, how: Communicated) {
    match how
    case InTime(out, err, code) =>
      Finished(s) && !s.child.killed && out == s.gotOut && err == s.gotErr && code == s.child.code
    case LateDrained(out, err, code) => Finished(s) && out == s.gotOut && err == s.gotErr && code == Some(s.child.code)
    case Abandoned(code) => code.Some? ==> s.child.Exited? && code.value == s.child.code
  }

  ghost predicate Inv(c: Config, s: State) { Protocol.Inv(c, s.core) && PhaseInv(c, s) }

  /** The parts of the core the phases speak of. */
  ghost predicate SameForPhase(s: Protocol.State, s': Protocol.State) {
    && s'.phase == s.phase && s'.watch == s.watch && s'.killSent == s.killSent && s'.now == s.now
    && (s.child.Exited? ==> s'.child == s.child)
    && (Finished(s) ==> Finished(s') && s'.gotOut == s.gotOut && s'.gotErr == s.gotErr)
  }

  ghost predicate SameEnds(s: Protocol.State, s': Protocol.State) {
    s'.child == s.child && s'.writerDone == s.writerDone
  }

  lemma StrayFrame(c: Config, s: Protocol.State, a: Protocol.StrayAction)
    requires Protocol.StrayEnabled(c, s, a)
    ensures SameEnds(s, Protocol.StrayStep(c, s, a))
  {
  }

  lemma ChildOutside(c: Config, s: Protocol.State, a: Protocol.ChildAction)
    requires Protocol.ChildEnabled(c, s, a)
    ensures SameForPhase(s, Protocol.ChildStep(c, s, a))
  {
    Protocol.ChildFrame(c, s, a);
    hide Protocol.ChildStep, Protocol.Advance;
  }

  lemma StrayOutside(c: Config, s: Protocol.State, a: Protocol.StrayAction)
    requires Protocol.StrayEnabled(c, s, a)
    ensures SameForPhase(s, Protocol.StrayStep(c, s, a))
  {
    Protocol.StrayFrame(c, s, a);
    StrayFrame(c, s, a);
    hide Protocol.StrayStep, Protocol.StrayEnabled;
  }

  lemma WriterOutside(c: Config, s: Protocol.State, a: Protocol.WriterAction)
    requires Protocol.WriterEnabled(c, s, a)
    ensures SameForPhase(s, Protocol.WriterStep(c, s, a))
  {
  }

  lemma OutsideFrame(c: Config, s: Protocol.State, m: Protocol.Action)
    requires Protocol.Enabled(c, s, m) && (m.OfChild? || m.OfStray? || m.OfWriter?)
    ensures SameForPhase(s, Protocol.Step(c, s, m))
  {
    hide Protocol.ChildStep, Protocol.ChildEnabled, Protocol.StrayStep, Protocol.StrayEnabled, Protocol.WriterStep,
      Protocol.WriterEnabled, SameForPhase;
    match m
    case OfChild(x) => ChildOutside(c, s, x);
    case OfStray(x) => StrayOutside(c, s, x);
    case OfWriter(x) => WriterOutside(c, s, x);
  }

  lemma TransferFrame(c: Config, s: Protocol.State, a: Protocol.PumpAction)
    requires Protocol.PipesInv(c, s) && Protocol.PumpEnabled(c, s, a) && Transfers(Protocol.OfPump(a))
    ensures SameForPhase(s, Protocol.PumpStep(c, s, a))
  {
  }

  lemma MoveFrame(c: Config, s: Protocol.State, m: Protocol.Action)
    requires Protocol.PipesInv(c, s) && Protocol.Enabled(c, s, m) && (m.OfChild? || m.OfStray? || Transfers(m))
    ensures SameForPhase(s, Protocol.Step(c, s, m))
  {
    hide SameForPhase, Protocol.PipesInv, Protocol.PumpStep, Protocol.PumpEnabled, Protocol.ChildStep,
      Protocol.ChildEnabled, Protocol.StrayStep, Protocol.StrayEnabled, Protocol.WriterStep,
      Protocol.WriterEnabled;
    if m.OfPump? {
      TransferFrame(c, s, m.pump);
    } else {
      OutsideFrame(c, s, m);
    }
  }

  lemma FrameKeepsPhase(c: Config, s: State, core: Protocol.State)
    requires PhaseInv(c, s) && SameForPhase(s.core, core)
    ensures PhaseInv(c, s.(core := core))
  {
  }

  lemma MoveKeeps(c: Config, s: State, m: Protocol.Action)
    requires Inv(c, s) && Enabled(c, s, Core(m))
    ensures Inv(c, Step(c, s, Core(m)))
  {
    hide PhaseInv, SameForPhase, Protocol.DeliveryInv, Protocol.ChildInv, Protocol.ControlInv, Protocol.PipesInv,
      Protocol.Step, Protocol.Enabled;
    Protocol.StepKeeps(c, s.core, m);
    MoveFrame(c, s.core, m);
    FrameKeepsPhase(c, s, Protocol.Step(c, s.core, m));
  }

  lemma TickKeeps(c: Config, s: State)
    requires Inv(c, s) && Enabled(c, s, Tick)
    ensures Inv(c, Step(c, s, Tick))
  {
    hide Protocol.OutOf, Protocol.ErrOf;
  }

  lemma KillKeeps(c: Config, s: State)
    requires Inv(c, s) && Enabled(c, s, Kill)
    ensures Inv(c, Step(c, s, Kill))
  {
    hide Protocol.OutOf, Protocol.ErrOf;
  }

  lemma PhaseKeeps(c: Config, s: State, a: Action)
    requires Inv(c, s) && Enabled(c, s, a) && !a.Core? && !a.Tick? && !a.Kill?
    ensures Inv(c, Step(c, s, a))
  {
    hide Protocol.Inv, Protocol.Enabled;
    if s.phase.Talk? && a.Done? {
      NotKilled(c, s.core);
    }
  }

  lemma NotKilled(c: Config, s: Protocol.State)
    requires Protocol.Inv(c, s) && !s.killSent
    ensures s.child.Exited? ==> !s.child.killed
  {
    hide Protocol.PipesInv, Protocol.DeliveryInv, Protocol.ControlInv;
  }

  lemma StepKeeps(c: Config, s: State, a: Action)
    requires Inv(c, s) && Enabled(c, s, a)
    ensures Inv(c, Step(c, s, a))
  {
    hide Inv, Enabled, Step;
    match a
    case Core(m) => MoveKeeps(c, s, m);
    case Tick => TickKeeps(c, s);
    case Kill => KillKeeps(c, s);
    case _ => PhaseKeeps(c, s, a);
  }

  lemma {:induction false} RunKeeps(c: Config, s: State, actions: seq<Action>)
    requires Inv(c, s) && IsRun(c, s, actions)
    ensures Inv(c, After(c, s, actions))
    decreases |actions|
  {
    hide Inv, Enabled, Step;
    if actions != [] {
      StepKeeps(c, s, actions[0]);
      RunKeeps(c, Step(c, s, actions[0]), actions[1..]);
    }
  }

  lemma InitialInv(c: Config)
    ensures Inv(c, Initial(c))
  {
    Protocol.InitialInv(c);
  }

  // ---------------------------------------------------------------- what a buffered run returns

  /** Every return of every run. In time means: both outputs complete and in order, the child exited
      by itself - the one kill comes from this thread, after its budget, so unlike the streamed run
      no killed child is ever reported as anything but a timeout - and, without descendants, the
      outputs and the code are the script's. Otherwise the deadline had passed. */
  lemma ReturnMeaning(c: Config, actions: seq<Action>)
    requires IsRun(c, Initial(c), actions) && After(c, Initial(c), actions).phase.Returned?
    ensures var s := After(c, Initial(c), actions);
            var how := s.phase.how;
            && (how.InTime? ==>
                  && how.out == s.core.sentOut && how.err == s.core.sentErr
                  && s.core.child == Protocol.Exited(how.code, false) && how.code == c.exitCode)
            && (how.InTime? && c.NoDescendants() ==>
                  how == InTime(Protocol.OutOf(c.script, true), Protocol.ErrOf(c.script, true), c.exitCode))
            && (!how.InTime? ==> s.core.now >= c.deadline)
            && (how.LateDrained? ==> how.out == s.core.sentOut && how.err == s.core.sentErr)
            && (!how.Abandoned? ==> s.core.writerDone && s.core.outEof && s.core.errEof && s.core.child.Exited?)
  {
    InitialInv(c);
    RunKeeps(c, Initial(c), actions);
    hide After, IsRun, Protocol.ControlInv;
    var s := After(c, Initial(c), actions).core;
    assert s.outEof ==> s.sentOut == s.gotOut + [];
    assert s.errEof ==> s.sentErr == s.gotErr + [];
    assert s.script == [] ==> s.sentOut + Protocol.OutOf(s.script, s.outOpen) == s.sentOut;
    assert s.script == [] ==> s.sentErr + Protocol.ErrOf(s.script, s.errOpen) == s.sentErr;
  }

  /** The step that returns, in any state: complete outputs and the reaped code when it is done talking,
      before the kill or after it; given up, the code of a child that has exited and none of one that has
      not. */
  lemma ReturnStep(c: Config, s: State, a: Action)
    requires Enabled(c, s, a) && !s.phase.Returned? && Step(c, s, a).phase.Returned?
    ensures var how := Step(c, s, a).phase.how;
            && (how.InTime? <==> s.phase.Talk?) && (how.LateDrained? <==> s.phase.Drain?)
            && (how.Abandoned? <==> s.phase.LastWait?)
            && (how.InTime? ==> how == InTime(s.core.gotOut, s.core.gotErr, s.core.child.code))
            && (how.LateDrained? ==> how == LateDrained(s.core.gotOut, s.core.gotErr, Some(s.core.child.code)))
            && (how.Abandoned? ==>
                  how == Abandoned(if s.core.child.Exited? then Some(s.core.child.code) else None))
  {
    hide Protocol.Enabled, Protocol.Step;
  }

  /** The way through `run`: talking ends in the return or, at the deadline, in the kill; then the drain,
      which ends in the return or in the last wait. */
  lemma StepFollows(c: Config, s: State, a: Action)
    requires Enabled(c, s, a) && Step(c, s, a).phase != s.phase
    ensures var p := Step(c, s, a).phase;
            match s.phase
            case Talk => p.Returned? || (p == KillTree && s.core.now >= c.deadline)
            case KillTree => p.Drain? && Step(c, s, a).core.killSent
            case Drain(_) => p.Returned? || p.LastWait?
            case LastWait(_) => p.Returned?
            case Returned(_) => false
  {
    hide Protocol.Enabled;
    if !a.Kill? {
      hide Protocol.Step;
    }
  }

  /** Draining and the last wait each last their whole grace before the thread gives up. */
  lemma WaitLastsItsGrace(c: Config, s: State, a: Action, rest: seq<Action>, late: Action)
    requires Enabled(c, s, a) && IsRun(c, Step(c, s, a), rest) && late in [DrainLate, ReapLate]
    requires Step(c, s, a).phase != s.phase && After(c, Step(c, s, a), rest).phase == Step(c, s, a).phase
    requires Enabled(c, After(c, Step(c, s, a), rest), late)
    ensures After(c, Step(c, s, a), rest).core.now >= s.core.now + c.grace
  {
    hide IsRun, After, Protocol.Enabled, Protocol.Step;
  }

  /** Every reachable state lies within the budget plus two graces, whatever descendants do. */
  lemma ReturnsInTime(c: Config, actions: seq<Action>)
    requires IsRun(c, Initial(c), actions)
    ensures After(c, Initial(c), actions).core.now
            <= (if c.deadline >= c.spawnedAt then c.deadline else c.spawnedAt) + 2 * c.grace
  {
    InitialInv(c);
    RunKeeps(c, Initial(c), actions);
    hide After, IsRun, Protocol.Inv;
  }

  /** The thread is never stuck: until it returns, it or the clock can move. */
  lemma ThreadOrClockMoves(c: Config, s: State) returns (a: Action)
    requires Inv(c, s) && !s.phase.Returned?
    ensures Enabled(c, s, a) && !a.Core?
  {
    hide Protocol.Inv;
    var due := s.core.now >= (if WaitsUntil(c, s.phase).Some? then WaitsUntil(c, s.phase).value else 0);
    match s.phase
    case Talk => a := if Finished(s.core) then Done else if due then Late else Tick;
    case KillTree => a := Kill;
    case Drain(_) => a := if Finished(s.core) then Done else if due then DrainLate else Tick;
    case LastWait(_) => a := if s.core.child.Exited? then Reap else if due then ReapLate else Tick;
  }

  /** Without descendants the run never depends on a timeout: while it talks, a step of the child, of
      the transfers or the return itself is enabled. */
  lemma NoDeadlock(c: Config, s: State) returns (a: Action)
    requires c.Valid() && c.NoDescendants() && Inv(c, s) && s.phase.Talk?
    ensures Enabled(c, s, a) && (a.Core? || a.Done?)
  {
    hide Protocol.OutOf, Protocol.ErrOf;
    var core := s.core;
    if Finished(core) {
      a := Done;
    } else if core.child.Alive? {
      var m := Protocol.ChildOrRelayMoves(c, core);
      a := Core(m);
    } else if !core.writerDone {
      a := Core(Protocol.OfWriter(Protocol.FeedBroken));
    } else if !core.outEof {
      a := Core(Protocol.OfPump(if core.outPipe != [] then Protocol.ReadOut(1) else Protocol.EofOut));
    } else {
      a := Core(Protocol.OfPump(if core.errPipe != [] then Protocol.ReadErr(1) else Protocol.EofErr));
    }
  }

  // ---------------------------------------------------------------- termination

  function PhaseRank(p: Phase): nat {
    match p
    case Talk => 4
    case KillTree => 3
    case Drain(_) => 2
    case LastWait(_) => 1
    case Returned(_) => 0
  }

  function Measure(c: Config, s: State): int { Protocol.Measure(c, s.core) + PhaseRank(s.phase) }

  lemma LaterDecreases(c: Config, s: Protocol.State)
    ensures Protocol.Measure(c, Later(s)) < Protocol.Measure(c, s)
  {
    hide Protocol.ScriptSize;
  }

  /** Every step uses up the measure of the streamed run together with the phases left. */
  lemma StepDecreases(c: Config, s: State, a: Action)
    requires Enabled(c, s, a)
    ensures Measure(c, Step(c, s, a)) < Measure(c, s)
  {
    hide Protocol.Measure, Protocol.Enabled, Protocol.Step;
    match a
    case Core(m) => Protocol.StepDecreases(c, s.core, m);
    case Kill => Protocol.StepDecreases(c, s.core, Protocol.OfClock(Protocol.WatchKill));
    case Tick => LaterDecreases(c, s.core);
    case _ =>
  }

  lemma {:induction false} RunsAreBounded(c: Config, s: State, actions: seq<Action>)
    requires Inv(c, s) && IsRun(c, s, actions)
    ensures |actions| <= Measure(c, s)
    decreases |actions|
  {
    hide Enabled, Step, Inv, Measure;
    if actions == [] {
      MeasureIsNatural(c, s);
    } else {
      StepDecreases(c, s, actions[0]);
      StepKeeps(c, s, actions[0]);
      RunsAreBounded(c, Step(c, s, actions[0]), actions[1..]);
    }
  }

  lemma MeasureIsNatural(c: Config, s: State)
    requires Inv(c, s)
    ensures Measure(c, s) >= 0
  {
    hide Protocol.Inv;
  }
}
